/** The bytes of a user's file and the lines of the user directory. A file is a string with one character per byte. */
module DiskRecord {
  import opened Options
  import opened Sequences
  import opened ServerTypes
  import opened UserPersistence

  // ---------- Words ----------

  /** The values of an unsigned int. */
  const WORDS: int := 0x1_0000_0000

  function ByteOf(x: int): char {
    (x % 256) as char
  }

  /** An int as it lies in memory, lowest byte first. */
  function WordBytes(x: int): (s: string)
    ensures |s| == 4
  {
    [ByteOf(x), ByteOf(x / 256), ByteOf(x / 256 / 256), ByteOf(x / 256 / 256 / 256)]
  }

  predicate AreBytes(s: string) {
    forall i :: 0 <= i < |s| ==> s[i] as int < 256
  }

  function UnsignedAt(s: string, at: nat): nat
    requires at + 4 <= |s|
  {
    s[at] as int + 256 * (s[at + 1] as int + 256 * (s[at + 2] as int + 256 * s[at + 3] as int))
  }

  /** An unsigned int taken for an int. */
  function AsInt(u: int): int {
    if u < WORDS / 2 then u else u - WORDS
  }

  predicate IsInt(x: int) {
    -WORDS / 2 <= x < WORDS / 2
  }

  lemma WordReadsBack(s: string, at: nat, x: int)
    requires at + 4 <= |s| && s[at..at + 4] == WordBytes(x)
    ensures UnsignedAt(s, at) == x % WORDS
    ensures IsInt(x) ==> AsInt(UnsignedAt(s, at)) == x
  {
    var w := s[at..at + 4];
    assert s[at] == w[0] && s[at + 1] == w[1] && s[at + 2] == w[2] && s[at + 3] == w[3];
    BytesSum(x);
  }

  lemma BytesSum(x: int)
    ensures x % 256 + 256 * (x / 256 % 256 + 256 * (x / 256 / 256 % 256 + 256 * (x / 256 / 256 / 256 % 256))) == x % WORDS
  {
    var a := x / 256;
    var b := a / 256;
    var c := b / 256;
    var sum := x % 256 + 256 * (a % 256 + 256 * (b % 256 + 256 * (c % 256)));
    assert x == 256 * a + x % 256 && a == 256 * b + a % 256 && b == 256 * c + b % 256 && c == 256 * (c / 256) + c % 256;
    Remainder(x, c / 256, sum);
  }

  lemma Remainder(x: int, q: int, r: int)
    requires x == WORDS * q + r && 0 <= r < WORDS
    ensures x % WORDS == r
  {
  }

  /** 256 to the power of k. */
  function Power(k: nat): nat {
    if k == 0 then 1 else 256 * Power(k - 1)
  }

  /** The bytes of a word, lowest first. */
  lemma ByteOfWord(x: int, k: nat)
    requires k < 4
    ensures Power(k) > 0 && WordBytes(x)[k] as int == x / Power(k) % 256
  {
    assert Power(1) == 256 && Power(2) == 65536 && Power(3) == 16777216;
    assert x / 256 / 256 == x / 65536 && x / 256 / 256 / 256 == x / 16777216;
  }

  // ---------- Records ----------

  /** Identifier, number of followers, followers. */
  function RecordBytes(data: PersistentData): string {
    WordBytes(data.id) + WordBytes(|data.followedBy|) + Words(data.followedBy)
  }

  function Words(xs: seq<int>): string {
    Flat(xs, x => WordBytes(x))
  }

  lemma {:induction false} WordsAt(xs: seq<int>, i: nat)
    requires i < |xs|
    ensures |Words(xs)| == 4 * |xs|
    ensures Words(xs)[4 * i..4 * i + 4] == WordBytes(xs[i])
  {
    var front := xs[..|xs| - 1];
    WordsLength(front);
    if i < |xs| - 1 {
      WordsAt(front, i);
      assert Words(xs)[4 * i..4 * i + 4] == Words(front)[4 * i..4 * i + 4];
    }
  }

  lemma {:induction false} WordsLength(xs: seq<int>)
    ensures |Words(xs)| == 4 * |xs|
  {
    if xs != [] {
      WordsLength(xs[..|xs| - 1]);
    }
  }

  /** What the loader makes of a file. Lengths are compared as unsigned ints, so both sides wrap around. Once the
      file is used up, reading leaves the last word in the buffer. */
  function DecodedRecord(file: string, username: string): Option<PersistentData> {
    var length := |file| % WORDS;
    if length < 8 then None
    else
      var followers := UnsignedAt(file, 4);
      if length != 4 * (2 + followers) % WORDS then None
      else Some(PersistentData(AsInt(UnsignedAt(file, 0)), username, seq(followers, i requires 0 <= i => FollowerAt(file, i))))
  }

  function FollowerAt(file: string, i: nat): int
    requires |file| >= 8
  {
    AsInt(UnsignedAt(file, 4 * (if 2 + i < |file| / 4 then 2 + i else |file| / 4 - 1)))
  }

  /** The record fits the widths of its fields and the 32-bit file length. */
  predicate FitsDisk(data: PersistentData) {
    && IsInt(data.id)
    && 4 * (2 + |data.followedBy|) < WORDS
    && forall f <- data.followedBy :: IsInt(f)
  }

  /** A record reads back as it was written. */
  lemma RecordReadsBack(data: PersistentData)
    requires FitsDisk(data)
    ensures |RecordBytes(data)| == 4 * (2 + |data.followedBy|)
    ensures DecodedRecord(RecordBytes(data), data.username) == Some(data)
  {
    hide UnsignedAt, WordBytes, Words, FollowerAt;
    var file, followers := RecordBytes(data), data.followedBy;
    WordsLength(followers);
    assert file[0..4] == WordBytes(data.id);
    assert file[4..8] == WordBytes(|followers|);
    WordReadsBack(file, 0, data.id);
    WordReadsBack(file, 4, |followers|);
    forall i | 0 <= i < |followers| ensures FollowerAt(file, i) == followers[i] {
      FollowerReadsBack(data, i);
    }
    hide *;
    assert DecodedRecord(file, data.username).value.followedBy == followers;
  }

  lemma FollowerReadsBack(data: PersistentData, i: nat)
    requires FitsDisk(data) && i < |data.followedBy|
    ensures |RecordBytes(data)| == 4 * (2 + |data.followedBy|)
    ensures FollowerAt(RecordBytes(data), i) == data.followedBy[i]
  {
    hide UnsignedAt, WordBytes, Words;
    var file, followers := RecordBytes(data), data.followedBy;
    WordsLength(followers);
    WordsAt(followers, i);
    assert file[8 + 4 * i..8 + 4 * i + 4] == Words(followers)[4 * i..4 * i + 4];
    WordReadsBack(file, 8 + 4 * i, followers[i]);
    assert followers[i] in followers;
  }

  /** Below 4 GiB, a file is accepted exactly when it is whole words, at least two, and its header is the number of
      followers it holds, up to a multiple of 2^30; so the accepted record has the followers of the file exactly when
      the header is below 2^30. */
  lemma AcceptedFiles(file: string, username: string)
    requires |file| < WORDS && AreBytes(file)
    ensures DecodedRecord(file, username).Some? <==>
              |file| >= 8 && |file| % 4 == 0 && UnsignedAt(file, 4) % (WORDS / 4) == |file| / 4 - 2
    ensures var r := DecodedRecord(file, username);
            r.Some? ==> (|r.value.followedBy| == |file| / 4 - 2 <==> UnsignedAt(file, 4) < WORDS / 4)
  {
    if |file| >= 8 {
      assert file[7] as int < 256 && file[6] as int < 256 && file[5] as int < 256 && file[4] as int < 256;
      assert UnsignedAt(file, 4) < WORDS;
      hide UnsignedAt, AreBytes;
      HeaderWraps(UnsignedAt(file, 4), |file|);
    }
  }

  lemma HeaderWraps(n: nat, length: nat)
    requires n < WORDS && 8 <= length < WORDS
    ensures length == 4 * (2 + n) % WORDS <==> length % 4 == 0 && n % (WORDS / 4) == length / 4 - 2
    ensures length == 4 * (2 + n) % WORDS ==> (n == length / 4 - 2 <==> n < WORDS / 4)
  {
    var q := n / (WORDS / 4);
    var m := n % (WORDS / 4);
    assert n == WORDS / 4 * q + m && 0 <= q < 4;
    assert 4 * (2 + n) == WORDS * q + 4 * (2 + m);
  }

  /** Eight bytes that announce 2^30 followers are accepted, with that many: the last word of the file, again and again. */
  lemma WrappedHeaderIsAccepted(username: string)
    ensures var r := DecodedRecord(WordBytes(1) + WordBytes(WORDS / 4), username);
            && r.Some? && r.value.id == 1 && |r.value.followedBy| == WORDS / 4
            && forall i :: 0 <= i < WORDS / 4 ==> r.value.followedBy[i] == WORDS / 4
  {
    var file := WordBytes(1) + WordBytes(WORDS / 4);
    assert file[4..8] == WordBytes(WORDS / 4);
    WordReadsBack(file, 4, WORDS / 4);
    assert file[0..4] == WordBytes(1);
    WordReadsBack(file, 0, 1);
    hide WordBytes, UnsignedAt;
  }

  /** Writes an int into a buffer. */
  method PutWord(buffer: array<char>, position: nat, x: int)
    requires position + 4 <= buffer.Length
    modifies buffer
    ensures buffer[..] == old(buffer[..position]) + WordBytes(x) + old(buffer[position + 4..])
  {
    var bytes := WordBytes(x);
    hide WordBytes;
    for i := 0 to 4
      invariant forall k :: 0 <= k < buffer.Length ==>
                  buffer[k] == if position <= k < position + i then bytes[k - position] else old(buffer[k])
    {
      buffer[position + i] := bytes[i];
    }
    assert buffer[..position] == old(buffer[..position]) && buffer[position + 4..] == old(buffer[position + 4..]);
    assert buffer[..] == buffer[..position] + buffer[position..position + 4] + buffer[position + 4..];
    assert buffer[position..position + 4] == bytes;
  }

  /** The writing part of update_user_on_disk. */
  method EncodeRecord(data: PersistentData) returns (buffer: array<char>)
    requires 4 * (2 + |data.followedBy|) < WORDS
    ensures fresh(buffer) && buffer[..] == RecordBytes(data)
  {
    var followers := data.followedBy;
    WordsLength(followers);
    buffer := new char[4 + 4 + 4 * |followers|](_ => '\0');
    PutWord(buffer, 0, data.id);
    PutWord(buffer, 4, |followers|);
    ghost var header := WordBytes(data.id) + WordBytes(|followers|);
    assert buffer[..8] == header;
    PutFollowers(buffer, followers);
    assert buffer[..8 + 4 * |followers|] == buffer[..];
  }

  method PutFollowers(buffer: array<char>, followers: seq<UserId>)
    requires buffer.Length == 8 + 4 * |followers|
    modifies buffer
    ensures buffer[..] == old(buffer[..8]) + Words(followers)
  {
    var position, size := 4, 4;
    for i := 0 to |followers|
      invariant position == 4 + 4 * i
      invariant buffer[..8 + 4 * i] == old(buffer[..8]) + Words(followers[..i])
    {
      position := position + size;
      WordsNext(followers, i);
      hide Words;
      PutWord(buffer, position, followers[i]);
    }
    assert followers[..|followers|] == followers;
    assert buffer[..8 + 4 * |followers|] == buffer[..];
  }

  lemma WordsNext(xs: seq<int>, i: nat)
    requires i < |xs|
    ensures Words(xs[..i + 1]) == Words(xs[..i]) + WordBytes(xs[i])
  {
    assert xs[..i + 1][..i] == xs[..i];
  }

  /** istream::read: as many bytes as there are, and the rest of the buffer untouched. */
  method Read(file: string, position: nat, buffer: array<char>) returns (next: nat)
    requires position <= |file|
    modifies buffer
    ensures next == (if position + buffer.Length <= |file| then position + buffer.Length else |file|)
    ensures forall k :: 0 <= k < buffer.Length ==>
              buffer[k] == if k < next - position then file[position + k] else old(buffer[k])
  {
    next := if position + buffer.Length <= |file| then position + buffer.Length else |file|;
    for i := 0 to next - position
      invariant forall k :: 0 <= k < buffer.Length ==> buffer[k] == if k < i then file[position + k] else old(buffer[k])
    {
      buffer[i] := file[position + i];
    }
  }

  /** The next word; at the end of the file, the buffer still holds the last one. */
  method ReadWord(file: string, position: nat, buffer: array<char>) returns (next: nat, word: nat)
    requires buffer.Length == 4
    requires position + 4 <= |file| || (4 <= position == |file| && buffer[..] == file[position - 4..position])
    modifies buffer
    ensures next == if position + 4 <= |file| then position + 4 else |file|
    ensures buffer[..] == file[next - 4..next] && word == UnsignedAt(file, next - 4)
  {
    next := Read(file, position, buffer);
    assert buffer[..] == file[next - 4..next];
    word := UnsignedAt(buffer[..], 0);
    SameWord(buffer[..], file, next - 4);
  }

  lemma SameWord(word: string, file: string, at: nat)
    requires at + 4 <= |file| && word == file[at..at + 4]
    ensures UnsignedAt(word, 0) == UnsignedAt(file, at)
  {
  }

  /** The reading part of load_and_update_persistent_data. */
  method DecodeRecord(file: string, username: string) returns (r: Option<PersistentData>)
    ensures r == DecodedRecord(file, username)
  {
    hide UnsignedAt, FollowerAt;
    var length := |file| % WORDS;
    if length < 8 {
      return None;
    }
    var buffer := new char[4];
    var position, id := ReadWord(file, 0, buffer);
    var number;
    position, number := ReadWord(file, position, buffer);
    if length != 4 * (2 + number) % WORDS {
      return None;
    }
    var followedBy := ReadFollowers(file, buffer, number);
    r := Some(PersistentData(AsInt(id), username, followedBy));
  }

  method ReadFollowers(file: string, buffer: array<char>, number: nat) returns (followedBy: seq<UserId>)
    requires |file| >= 8 && |file| % 4 == 0 && buffer.Length == 4 && buffer[..] == file[4..8]
    modifies buffer
    ensures followedBy == seq(number, i requires 0 <= i => FollowerAt(file, i))
  {
    hide UnsignedAt;
    followedBy := [];
    var position := 8;
    for i := 0 to number
      invariant position == if 8 + 4 * i <= |file| then 8 + 4 * i else |file|
      invariant buffer[..] == file[position - 4..position]
      invariant |followedBy| == i && forall j :: 0 <= j < i ==> followedBy[j] == FollowerAt(file, j)
    {
      var word;
      position, word := ReadWord(file, position, buffer);
      followedBy := followedBy + [AsInt(word)];
    }
  }
}
