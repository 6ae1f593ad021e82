/** The user directory: one name on each line. */
module UserDirectory {
  import opened Sequences
  import opened ServerTypes

  function LineEnd(text: string, at: nat): (end: nat)
    requires at <= |text|
    ensures at <= end <= |text|
    ensures '\n' !in text[at..end] && (end < |text| ==> text[end] == '\n')
    decreases |text| - at
  {
    if at == |text| || text[at] == '\n' then at else LineEnd(text, at + 1)
  }

  /** The valid names among the lines from a position on. A last line may lack its line feed. */
  function NamesFrom(text: string, at: nat): seq<string>
    decreases |text| - at
  {
    if at >= |text| then []
    else
      var end := LineEnd(text, at);
      (if IsValidUsername(text[at..end]) then [text[at..end]] else []) + NamesFrom(text, end + 1)
  }

  function Names(text: string): seq<string> {
    NamesFrom(text, 0)
  }

  function Line(name: string): string {
    name + "\n"
  }

  function DirectoryText(names: seq<string>): string {
    Flat(names, name => Line(name))
  }

  lemma DirectoryAppend(names: seq<string>, name: string)
    ensures DirectoryText(names + [name]) == DirectoryText(names) + Line(name)
  {
    assert (names + [name])[..|names|] == names;
  }

  predicate WholeLines(text: string) {
    text == "" || text[|text| - 1] == '\n'
  }

  lemma ValidHasNoLineFeed(name: string)
    requires IsValidUsername(name)
    ensures '\n' !in name
  {
  }

  lemma {:induction false} SameLineEnd(text: string, more: string, at: nat)
    requires at <= |text| && (LineEnd(text, at) < |text| || more == "" || more[0] == '\n')
    ensures LineEnd(text + more, at) == LineEnd(text, at)
    decreases |text| - at
  {
    if at < |text| && text[at] != '\n' {
      SameLineEnd(text, more, at + 1);
    }
  }

  /** What a line adds: its name, if that is valid. */
  function NameIn(line: string): seq<string> {
    if IsValidUsername(line) then [line] else []
  }

  /** One more line, with its line feed or without. */
  lemma {:induction false} LineAdded(text: string, line: string, ending: string, at: nat)
    requires WholeLines(text) && '\n' !in line && (ending == "" || ending == "\n") && at <= |text|
    ensures NamesFrom(text + line + ending, at) == NamesFrom(text, at) + NameIn(line)
    decreases |text| - at
  {
    hide IsValidUsername, LineEnd, NamesFrom;
    if at == |text| {
      LastLine(text, line, ending);
      NoNames(text);
    } else {
      var end, longer := LineEnd(text, at), text + line + ending;
      assert longer == text + (line + ending);
      SameLineEnd(text, line + ending, at);
      NextName(text, at);
      NextName(longer, at);
      assert longer[at..end] == text[at..end];
      LineAdded(text, line, ending, end + 1);
    }
  }

  lemma LastLine(text: string, line: string, ending: string)
    requires '\n' !in line && (ending == "" || ending == "\n")
    ensures NamesFrom(text + line + ending, |text|) == NameIn(line)
  {
    var longer := text + line + ending;
    assert (text + line)[|text|..] == line;
    NoLineFeed(text + line, |text|);
    SameLineEnd(text + line, ending, |text|);
    if longer == text {
      NoNames(text);
      EmptyIsNoName();
    } else {
      assert longer[|text|..|text| + |line|] == line;
      NextName(longer, |text|);
      NoNames(longer);
    }
    hide NamesFrom, LineEnd, IsValidUsername;
  }

  lemma EmptyIsNoName()
    ensures NameIn("") == []
  {
  }

  /** The line of a valid name adds the name. */
  lemma NameAdded(text: string, name: string, at: nat)
    requires WholeLines(text) && IsValidUsername(name) && at <= |text|
    ensures NamesFrom(text + Line(name), at) == NamesFrom(text, at) + [name]
  {
    ValidHasNoLineFeed(name);
    LineAdded(text, name, "\n", at);
    assert text + Line(name) == text + name + "\n";
    hide NamesFrom;
  }

  /** Any lines: the valid names among them, in order; the last one counts even without a line feed. */
  lemma {:induction false} LinesAreRead(lines: seq<string>, last: string)
    requires (forall i :: 0 <= i < |lines| ==> '\n' !in lines[i]) && '\n' !in last
    ensures WholeLines(DirectoryText(lines))
    ensures Names(DirectoryText(lines)) == Flat(lines, line => NameIn(line))
    ensures Names(DirectoryText(lines) + last) == Flat(lines, line => NameIn(line)) + NameIn(last)
  {
    hide IsValidUsername, NamesFrom, LineEnd;
    if lines == [] {
      NoNames("");
    } else {
      var front, line := lines[..|lines| - 1], lines[|lines| - 1];
      LinesAreRead(front, "");
      LineAdded(DirectoryText(front), line, "\n", 0);
      assert DirectoryText(lines) == DirectoryText(front) + line + "\n";
    }
    LineAdded(DirectoryText(lines), last, "", 0);
    assert DirectoryText(lines) + last + "" == DirectoryText(lines) + last;
  }

  lemma {:induction false} NoLineFeed(text: string, at: nat)
    requires at <= |text| && '\n' !in text[at..]
    ensures LineEnd(text, at) == |text|
    decreases |text| - at
  {
    if at < |text| {
      assert text[at] in text[at..];
      assert text[at + 1..] == text[at..][1..];
      NoLineFeed(text, at + 1);
    }
  }

  /** The directory reads back as the names it was made of. */
  lemma {:induction false} DirectoryReadsBack(names: seq<string>)
    requires forall name <- names :: IsValidUsername(name)
    ensures Names(DirectoryText(names)) == names && WholeLines(DirectoryText(names))
  {
    if names != [] {
      var front, last := names[..|names| - 1], names[|names| - 1];
      assert last in names;
      DirectoryReadsBack(front);
      NameAdded(DirectoryText(front), last, 0);
    }
  }

  /** std::getline */
  method GetLine(text: string, position: nat) returns (line: string, next: nat)
    requires position < |text|
    ensures var end := LineEnd(text, position);
            line == text[position..end] && next == if end < |text| then end + 1 else end
  {
    var end := position;
    while end < |text| && text[end] != '\n'
      invariant position <= end <= |text|
      invariant LineEnd(text, position) == LineEnd(text, end)
    {
      end := end + 1;
    }
    line := text[position..end];
    next := if end < |text| then end + 1 else end;
  }

  lemma NextName(text: string, position: nat)
    requires position < |text|
    ensures var end := LineEnd(text, position);
            NamesFrom(text, position)
            == (if IsValidUsername(text[position..end]) then [text[position..end]] else [])
               + NamesFrom(text, if end < |text| then end + 1 else end)
  {
    hide IsValidUsername, LineEnd;
  }

  lemma NoNames(text: string)
    ensures NamesFrom(text, |text|) == []
  {
  }

  /** The first loop of load_and_update_persistent_data. */
  method ReadNames(text: string) returns (names: seq<string>)
    ensures names == Names(text)
  {
    hide IsValidUsername, NamesFrom, LineEnd;
    names := [];
    var position := 0;
    while position < |text|
      invariant position <= |text|
      invariant Names(text) == names + NamesFrom(text, position)
    {
      NextName(text, position);
      var line;
      line, position := GetLine(text, position);
      if !IsValidUsername(line) {
        continue;
      }
      names := names + [line];
    }
    NoNames(text);
  }

  class Directory {
    var usernames: seq<string>

    constructor (usernames: seq<string>)
      ensures this.usernames == usernames
    {
      this.usernames := usernames;
    }

    method AddUser(username: string) returns (added: bool)
      modifies this
      ensures added <==> username !in old(usernames)
      ensures usernames == old(usernames) + (if added then [username] else [])
    {
      for i := 0 to |usernames|
        invariant usernames == old(usernames) && username !in usernames[..i]
      {
        if usernames[i] == username {
          return false;
        }
      }
      assert usernames[..|usernames|] == usernames;
      usernames := usernames + [username];
      return true;
    }
  }
}
