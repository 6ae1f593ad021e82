/** What a directory lists after a user's record has been written over it. */
module SpoiltDirectory {
  import opened ServerTypes
  import opened UserPersistence
  import opened DiskRecord
  import opened UserDirectory

  /** A line that starts before the last line and reaches it ends where that ends. */
  lemma ReachesEnd(words: string, line: string, at: nat)
    requires at <= |words| && (line == "" || exists name :: IsValidUsername(name) && line == Line(name))
    ensures LineEnd(words + line, at) >= |words| ==> LineEnd(words + line, at) >= |words + line| - 1
  {
    var text, end := words + line, LineEnd(words + line, at);
    if line != "" && end >= |words| {
      var name :| IsValidUsername(name) && line == Line(name);
      ValidHasNoLineFeed(name);
      hide IsValidUsername;
      assert forall i :: |words| <= i < |text| - 1 ==> text[i] == name[i - |words|];
    }
  }

  /** A valid name takes five bytes. */
  lemma {:induction false} NamesTakeRoom(words: string, line: string, at: nat)
    requires at <= |words| && (line == "" || exists name :: IsValidUsername(name) && line == Line(name))
    ensures |NamesFrom(words + line, at)| <= (|words| - at + 4) / 5 + (if line == "" then 0 else 1)
    decreases |words| - at
  {
    var text := words + line;
    NoNames(text);
    if at < |text| {
      var end := LineEnd(text, at);
      NextName(text, at);
      ReachesEnd(words, line, at);
      assert IsValidUsername(text[at..end]) ==> end - at >= 4;
      hide NamesFrom, IsValidUsername;
      if end < |words| {
        NamesTakeRoom(words, line, end + 1);
      }
    }
  }

  /** The header of a record with few followers is part of no name. */
  lemma {:induction false} HeaderIsNoName(text: string, at: nat) returns (from: nat, next: nat)
    requires |text| >= 8 && at <= 7
    requires text[4] < ' ' && text[4] != '\n' && text[5] == text[6] == text[7] == '\0'
    ensures from <= 7 && next == LineEnd(text, from) + 1 && next >= 9
    ensures NamesFrom(text, at) == NamesFrom(text, next)
    decreases 8 - at
  {
    var end := LineEnd(text, at);
    var line := text[at..end];
    assert end <= 3 || line[7 - at] == '\0';
    assert !IsValidUsername(line);
    hide IsValidUsername, LineEnd, NamesFrom;
    NextName(text, at);
    from, next := at, end + 1;
    if end <= 7 {
      from, next := HeaderIsNoName(text, end + 1);
    } else if end == |text| {
      NoNames(text);
      PastEnd(text);
    }
  }

  lemma PastEnd(text: string)
    ensures NamesFrom(text, |text| + 1) == []
  {
  }

  lemma HeaderBytes(data: PersistentData)
    requires |data.followedBy| < 8
    ensures var file := RecordBytes(data);
            && |file| == 8 + 4 * |data.followedBy|
            && file[4] < ' ' && file[4] != '\n' && file[5] == file[6] == file[7] == '\0'
  {
    WordsLength(data.followedBy);
  }

  /** A record, and perhaps one line, list no more names than the record has followers, and the line; without
      followers, they list none. */
  lemma RecordListsFew(data: PersistentData, line: string)
    requires line == "" || exists name :: IsValidUsername(name) && line == Line(name)
    ensures var n := |data.followedBy|;
            |Names(RecordBytes(data) + line)| <= if n == 0 || line == "" then n else n + 1
  {
    var n, words := |data.followedBy|, RecordBytes(data);
    var text := words + line;
    WordsLength(data.followedBy);
    if n >= 8 {
      NamesTakeRoom(words, line, 0);
    } else {
      HeaderBytes(data);
      hide RecordBytes, IsValidUsername;
      var from, next := HeaderIsNoName(text, 0);
      ReachesEnd(words, line, from);
      if next <= |words| {
        NamesTakeRoom(words, line, next);
      } else {
        NoNames(text);
        PastEnd(text);
        hide NamesFrom;
        assert next == |text| || next == |text| + 1;
      }
    }
  }

  /** A record and the lines after it list fewer names than the followers, their user, and the lines. */
  lemma {:induction false} FewNames(data: PersistentData, names: seq<string>)
    requires forall name <- names :: IsValidUsername(name)
    ensures var n := |data.followedBy|;
            |Names(RecordBytes(data) + DirectoryText(names))| <= if n > 0 then n + |names| else if names == [] then 0 else |names| - 1
    ensures names != [] ==> WholeLines(RecordBytes(data) + DirectoryText(names))
  {
    hide RecordBytes, IsValidUsername;
    var words := RecordBytes(data);
    if names == [] {
      assert words + DirectoryText(names) == words + "";
      RecordListsFew(data, "");
    } else {
      var front, last := names[..|names| - 1], names[|names| - 1];
      assert last in names && forall name <- front :: name in names;
      assert DirectoryText(names) == DirectoryText(front) + Line(last);
      if front == [] {
        assert words + DirectoryText(names) == words + Line(last);
        RecordListsFew(data, Line(last));
      } else {
        FewNames(data, front);
        assert words + DirectoryText(names) == (words + DirectoryText(front)) + Line(last);
        NameAdded(words + DirectoryText(front), last, 0);
      }
    }
  }
}
