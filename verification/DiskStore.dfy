/** The files under server_data: what is loaded from them, and how a snapshot of a user changes them. */
module DiskStore {
  import opened Options
  import opened Sequences
  import opened ServerTypes
  import opened UserPersistence
  import opened DiskRecord
  import opened UserDirectory
  import opened SpoiltDirectory

  /** A file, by the path it has without its extension. */
  type Path = string

  /** Which file the path made of a username leads to, none if it cannot be opened. What the file system makes of a
      path is not known here; a name with a slash may lead to no file, to another user's, or to the directory's. */
  type Places = string -> Option<Path>

  datatype Files = Files(place: Places, content: map<Path, string>)

  /** The files, and the names that the directory is known to hold. */
  datatype Disk = Disk(files: Files, known: seq<string>)

  const DIRECTORY: Path := "user_directory"

  function DirectoryOf(files: Files): string {
    if DIRECTORY in files.content then files.content[DIRECTORY] else ""
  }

  /** guarantee_user_directory_exists */
  function Guaranteed(files: Files): Files {
    if DIRECTORY in files.content then files else files.(content := files.content[DIRECTORY := ""])
  }

  /** Files that are missing or malformed are skipped. */
  function LoadedUser(files: Files, name: string): seq<PersistentData> {
    var path := files.place(name);
    if path.None? || path.value !in files.content then []
    else
      var r := DecodedRecord(files.content[path.value], name);
      if r.Some? then [r.value] else []
  }

  /** load_and_update_persistent_data */
  function Loaded(files: Files): seq<PersistentData> {
    LoadedUsers(files, Names(DirectoryOf(files)))
  }

  function LoadedUsers(files: Files, names: seq<string>): seq<PersistentData> {
    Flat(names, name => LoadedUser(files, name))
  }

  /** What loading leaves behind: a directory, and its names known. */
  function Started(files: Files): Disk {
    Disk(Guaranteed(files), Names(DirectoryOf(files)))
  }

  /** The user's file is opened, if it can be, and is empty from then on. */
  function Emptied(files: Files, name: string): (after: Files)
    ensures after.place == files.place
  {
    var path := files.place(name);
    if path.None? then files else files.(content := files.content[path.value := ""])
  }

  /** The user's file is written if it can be opened; a new user is not listed yet. */
  function Written(files: Files, data: PersistentData): (after: Files)
    ensures after.place == files.place
  {
    var path := files.place(data.username);
    if path.None? then files else files.(content := files.content[path.value := RecordBytes(data)])
  }

  /** The last write for a new user: the name goes to the directory. */
  function Listed(files: Files, name: string): (after: Files)
    ensures after.place == files.place
  {
    files.(content := files.content[DIRECTORY := DirectoryOf(files) + Line(name)])
  }

  /** update_user_on_disk: a new name is known from now on, but is listed only if its file could be opened. */
  function Updated(disk: Disk, data: PersistentData): (after: Disk)
    ensures after.files.place == disk.files.place
  {
    var files := Written(disk.files, data);
    if data.username in disk.known then disk.(files := files)
    else
      Disk(if files.place(data.username).None? then files else Listed(files, data.username), disk.known + [data.username])
  }

  /** The disk after a sequence of snapshots. */
  function DiskAfter(disk: Disk, queued: seq<PersistentData>): (after: Disk)
    ensures after.files.place == disk.files.place
  {
    if queued == [] then disk else Updated(DiskAfter(disk, queued[..|queued| - 1]), queued[|queued| - 1])
  }

  /** A snapshot replaces the record of its user, or goes to the end. */
  function Mutated(saved: seq<PersistentData>, data: PersistentData): seq<PersistentData> {
    if saved == [] then [data]
    else if saved[0].username == data.username then [data] + saved[1..]
    else [saved[0]] + Mutated(saved[1..], data)
  }

  /** A record that its file can hold. */
  predicate Storable(data: PersistentData) {
    IsValidUsername(data.username) && FitsDisk(data)
  }

  /** Each name leads to a file of its own, which is not the directory. */
  ghost predicate Apart(place: Places, names: set<string>) {
    && (forall name <- names :: place(name).Some? && place(name) != Some(DIRECTORY))
    && forall a, b :: a in names && b in names && a != b ==> place(a) != place(b)
  }

  /** The records can be kept together under these names. */
  ghost predicate AllStorable(list: seq<PersistentData>, names: set<string>) {
    forall d <- list :: Storable(d) && d.username in names
  }

  function NamesOf(saved: seq<PersistentData>): (names: seq<string>)
    ensures |names| == |saved|
  {
    seq(|saved|, i requires 0 <= i < |saved| => saved[i].username)
  }

  /** The user's file holds the record. */
  ghost predicate Holds(files: Files, d: PersistentData) {
    var path := files.place(d.username);
    path.Some? && path.value != DIRECTORY && path.value in files.content && files.content[path.value] == RecordBytes(d)
  }

  /** The files hold exactly these records. */
  ghost predicate Represents(disk: Disk, saved: seq<PersistentData>) {
    && disk.known == NamesOf(saved)
    && Distinct(disk.known)
    && DirectoryOf(disk.files) == DirectoryText(disk.known)
    && forall d <- saved :: Storable(d) && Holds(disk.files, d)
  }

  lemma {:induction false} LoadedUsersAre(files: Files, saved: seq<PersistentData>)
    requires forall d <- saved :: Storable(d) && Holds(files, d)
    ensures LoadedUsers(files, NamesOf(saved)) == saved
  {
    assert LoadedUsers(files, []) == [];
    if saved != [] {
      var front, last := saved[..|saved| - 1], saved[|saved| - 1];
      assert last in saved;
      LoadedUserIs(files, last);
      hide Storable, Holds, LoadedUsers, LoadedUser;
      LoadedUsersAre(files, front);
      LoadedUsersNext(files, NamesOf(saved));
      assert NamesOf(saved)[..|saved| - 1] == NamesOf(front) && NamesOf(saved)[|saved| - 1] == last.username;
      hide NamesOf;
      assert front + [last] == saved;
    }
  }

  lemma LoadedUserIs(files: Files, d: PersistentData)
    requires Storable(d) && Holds(files, d)
    ensures LoadedUser(files, d.username) == [d]
  {
    RecordReadsBack(d);
  }

  lemma LoadedUsersNext(files: Files, names: seq<string>)
    requires names != []
    ensures LoadedUsers(files, names) == LoadedUsers(files, names[..|names| - 1]) + LoadedUser(files, names[|names| - 1])
  {
  }

  /** Loading gives the records. */
  lemma LoadRepresents(disk: Disk, saved: seq<PersistentData>)
    requires Represents(disk, saved)
    ensures Loaded(disk.files) == saved && Names(DirectoryOf(disk.files)) == disk.known
  {
    forall name | name in disk.known ensures IsValidUsername(name) {
      var i :| 0 <= i < |saved| && saved[i].username == name;
      assert saved[i] in saved;
    }
    DirectoryReadsBack(disk.known);
    LoadedUsersAre(disk.files, saved);
  }

  /** What loading leaves behind holds the same records, and a directory. */
  lemma LoadingKeeps(disk: Disk, saved: seq<PersistentData>)
    requires Represents(disk, saved)
    ensures Represents(Started(disk.files), saved) && Loaded(Started(disk.files).files) == saved
    ensures Started(disk.files).files.content.Keys == disk.files.content.Keys + {DIRECTORY}
  {
    LoadRepresents(disk, saved);
    LoadRepresents(Started(disk.files), saved);
  }

  lemma {:induction false} MutatedNew(saved: seq<PersistentData>, data: PersistentData)
    requires forall d <- saved :: d.username != data.username
    ensures Mutated(saved, data) == saved + [data]
  {
    if saved != [] {
      assert saved[0] in saved;
      MutatedNew(saved[1..], data);
    }
  }

  lemma {:induction false} MutatedKnown(saved: seq<PersistentData>, i: nat, data: PersistentData)
    requires i < |saved| && saved[i].username == data.username
    requires forall j :: 0 <= j < i ==> saved[j].username != data.username
    ensures Mutated(saved, data) == saved[i := data]
  {
    if i > 0 {
      MutatedKnown(saved[1..], i - 1, data);
      assert saved[i := data] == [saved[0]] + saved[1..][i - 1 := data];
    }
  }

  /** The data's file is nobody else's, nor the directory. */
  ghost predicate HasOwnFile(place: Places, saved: seq<PersistentData>, name: string) {
    && place(name).Some? && place(name) != Some(DIRECTORY)
    && forall d <- saved :: d.username != name ==> place(d.username) != place(name)
  }

  lemma ApartFromOthers(place: Places, names: set<string>, saved: seq<PersistentData>, name: string)
    requires Apart(place, names) && AllStorable(saved, names) && name in names
    ensures HasOwnFile(place, saved, name)
  {
  }

  lemma EmptiedThenWritten(files: Files, data: PersistentData)
    ensures Written(Emptied(files, data.username), data) == Written(files, data)
  {
    if files.place(data.username).Some? {
      assert Written(Emptied(files, data.username), data).content == Written(files, data).content;
    }
  }

  lemma NamesOfParts(saved: seq<PersistentData>, i: nat)
    requires i < |saved|
    ensures NamesOf(saved) == NamesOf(saved[..i]) + [saved[i].username] + NamesOf(saved[i + 1..])
  {
  }

  lemma LoadedBut(files: Files, saved: seq<PersistentData>, i: nat)
    requires i < |saved| && LoadedUser(files, saved[i].username) == []
    requires forall j :: 0 <= j < |saved| && j != i ==> Storable(saved[j]) && Holds(files, saved[j])
    ensures LoadedUsers(files, NamesOf(saved)) == saved[..i] + saved[i + 1..]
  {
    hide Storable, Holds, LoadedUser;
    var before, after := saved[..i], saved[i + 1..];
    NamesOfParts(saved, i);
    LoadedUsersAre(files, before);
    LoadedUsersAre(files, after);
    hide NamesOf;
    FlatAppend(NamesOf(before) + [saved[i].username], NamesOf(after), name => LoadedUser(files, name));
    FlatAppend(NamesOf(before), [saved[i].username], name => LoadedUser(files, name));
    FlatOne(saved[i].username, name => LoadedUser(files, name));
    assert before + [] == before;
  }

  /** Between opening and writing, the file of a known user holds nothing, and exactly that user is not loaded. */
  lemma TornOpen(disk: Disk, saved: seq<PersistentData>, i: nat)
    requires Represents(disk, saved) && i < |saved| && HasOwnFile(disk.files.place, saved, saved[i].username)
    ensures var files := Emptied(disk.files, saved[i].username);
            Loaded(files) == saved[..i] + saved[i + 1..] && Names(DirectoryOf(files)) == disk.known
  {
    var name := saved[i].username;
    var files := Emptied(disk.files, name);
    LoadRepresents(disk, saved);
    hide RecordBytes, Storable, Names;
    forall j | 0 <= j < |saved| && j != i ensures Storable(saved[j]) && Holds(files, saved[j]) {
      assert disk.known[j] == saved[j].username && disk.known[i] == name;
      assert saved[j] in saved;
    }
    EmptyIsNoRecord(name);
    LoadedBut(files, saved, i);
  }

  lemma EmptyIsNoRecord(name: string)
    ensures DecodedRecord("", name) == None
  {
  }

  /** Until its line is added to the directory, a new user's file makes no difference, empty or not. */
  lemma TornNew(disk: Disk, saved: seq<PersistentData>, name: string, bytes: string)
    requires Represents(disk, saved) && name !in disk.known && HasOwnFile(disk.files.place, saved, name)
    ensures var files := disk.files.(content := disk.files.content[disk.files.place(name).value := bytes]);
            Represents(disk.(files := files), saved)
  {
    var torn := disk.(files := disk.files.(content := disk.files.content[disk.files.place(name).value := bytes]));
    hide RecordBytes, Storable;
    forall d | d in saved ensures Holds(torn.files, d) {
      var i :| 0 <= i < |saved| && saved[i] == d;
      assert NamesOf(saved)[i] in disk.known;
    }
  }

  /** The same once the file is written. */
  lemma TornWrite(disk: Disk, saved: seq<PersistentData>, data: PersistentData)
    requires Represents(disk, saved) && data.username !in disk.known && HasOwnFile(disk.files.place, saved, data.username)
    ensures Represents(disk.(files := Written(disk.files, data)), saved)
    ensures Loaded(Written(disk.files, data)) == saved
  {
    TornNew(disk, saved, data.username, RecordBytes(data));
    LoadRepresents(disk.(files := Written(disk.files, data)), saved);
  }

  lemma UpdatedNew(disk: Disk, saved: seq<PersistentData>, data: PersistentData)
    requires Represents(disk, saved) && Storable(data)
    requires data.username !in disk.known && HasOwnFile(disk.files.place, saved, data.username)
    ensures Represents(Updated(disk, data), saved + [data])
  {
    TornWrite(disk, saved, data);
    hide Storable, RecordBytes;
    var disk' := Updated(disk, data);
    assert disk'.known == NamesOf(saved + [data]);
    assert disk'.known[..|disk.known|] == disk.known;
    forall d | d in saved + [data] ensures Storable(d) && Holds(disk'.files, d) {
      if d in saved {
        assert Holds(Written(disk.files, data), d);
      }
    }
  }

  lemma UpdatedKnown(disk: Disk, saved: seq<PersistentData>, i: nat, data: PersistentData)
    requires Represents(disk, saved) && Storable(data) && HasOwnFile(disk.files.place, saved, data.username)
    requires i < |saved| && saved[i].username == data.username
    ensures Represents(Updated(disk, data), saved[i := data])
  {
    hide Storable, RecordBytes;
    var disk', saved' := Updated(disk, data), saved[i := data];
    assert disk.known[i] == data.username;
    assert disk'.known == NamesOf(saved');
    forall d | d in saved' ensures Storable(d) && Holds(disk'.files, d) {
      var j :| 0 <= j < |saved'| && saved'[j] == d;
      if j != i {
        assert saved[j] in saved && disk.known[j] == d.username;
      }
    }
  }

  /** Applying a snapshot to the files is applying it to the records they hold. */
  lemma UpdatedRepresents(disk: Disk, saved: seq<PersistentData>, data: PersistentData)
    requires Represents(disk, saved) && Storable(data) && HasOwnFile(disk.files.place, saved, data.username)
    ensures Represents(Updated(disk, data), Mutated(saved, data))
  {
    hide Storable, Holds, HasOwnFile;
    if data.username in disk.known {
      var i :| 0 <= i < |disk.known| && disk.known[i] == data.username;
      forall j | 0 <= j < i ensures saved[j].username != data.username {
        assert disk.known[j] == saved[j].username;
      }
      MutatedKnown(saved, i, data);
      UpdatedKnown(disk, saved, i, data);
    } else {
      forall d | d in saved ensures d.username != data.username {
        var i :| 0 <= i < |saved| && saved[i] == d;
        assert disk.known[i] == d.username;
      }
      MutatedNew(saved, data);
      UpdatedNew(disk, saved, data);
    }
  }

  // ---------- Names that have no file of their own ----------

  /** Names without a slash lead to the file of their own name. */
  ghost predicate Ordinary(place: Places) {
    forall name: string :: '/' !in name ==> place(name) == Some(name)
  }

  /** Without slashes, only the directory's own name is in the way. */
  lemma OrdinaryNames(place: Places, names: set<string>)
    requires Ordinary(place) && forall name <- names :: '/' !in name
    ensures Apart(place, names) <==> DIRECTORY !in names
  {
  }

  /** Nothing keeps such names from being registered. */
  lemma BadNamesAreValid()
    ensures IsValidUsername("user_directory") && IsValidUsername("aa/bb") && IsValidUsername("./bobb")
  {
  }

  /** A new user is kept, with all the others, exactly when they have a file of their own. A file that cannot be opened
      leaves the records before; if it is the directory, all are lost. */
  lemma NewUserIsKept(disk: Disk, saved: seq<PersistentData>, id: UserId, username: string)
    requires Represents(disk, saved) && IsInt(id) && IsValidUsername(username) && username !in disk.known
    requires forall d <- saved :: d.id != id
    ensures var data := PersistentData(id, username, []);
            var place, after := disk.files.place, Loaded(Updated(disk, data).files);
            && (after == saved + [data] <==> HasOwnFile(place, saved, username))
            && (place(username) == None ==> after == saved)
            && (place(username) == Some(DIRECTORY) ==> after == [])
  {
    var data := PersistentData(id, username, []);
    var place := disk.files.place;
    hide RecordBytes;
    LoadRepresents(disk, saved);
    if HasOwnFile(place, saved, username) {
      UpdatedNew(disk, saved, data);
      LoadRepresents(Updated(disk, data), saved + [data]);
    } else if place(username) == Some(DIRECTORY) {
      DirectoryIsEmptied(disk, data);
    } else if place(username).Some? {
      SharedFile(disk, saved, data);
    }
  }

  lemma DirectoryIsEmptied(disk: Disk, data: PersistentData)
    requires data.followedBy == [] && IsValidUsername(data.username) && data.username !in disk.known
    requires disk.files.place(data.username) == Some(DIRECTORY)
    ensures Loaded(Updated(disk, data).files) == []
  {
    var text := DirectoryOf(Updated(disk, data).files);
    assert text == RecordBytes(data) + Line(data.username);
    RecordListsFew(data, Line(data.username));
    assert Names(text) == [];
  }

  /** A user with the file of another: the other's record is now the user's. */
  lemma SharedFile(disk: Disk, saved: seq<PersistentData>, data: PersistentData)
    requires Represents(disk, saved) && Storable(data) && data.username !in disk.known
    requires disk.files.place(data.username).Some? && disk.files.place(data.username) != Some(DIRECTORY)
    requires !HasOwnFile(disk.files.place, saved, data.username) && forall d <- saved :: d.id != data.id
    ensures Loaded(Updated(disk, data).files) != saved + [data]
  {
    var files := Updated(disk, data).files;
    var other :| other in saved && files.place(other.username) == files.place(data.username);
    RecordReadsBack(data);
    RecordReadsBack(data.(username := other.username));
    hide RecordBytes;
    assert LoadedUser(files, other.username) == [data.(username := other.username)];
    if Loaded(files) == saved + [data] {
      assert (saved + [data])[|saved|] == data && other in saved + [data];
      LoadedHas(files, Names(DirectoryOf(files)), other);
      assert false;
    }
  }

  /** A loaded record is that of its listed name. */
  lemma {:induction false} LoadedHas(files: Files, names: seq<string>, d: PersistentData)
    requires d in LoadedUsers(files, names)
    ensures d.username in names && LoadedUser(files, d.username) == [d]
  {
    var front, last := names[..|names| - 1], names[|names| - 1];
    LoadedUsersNext(files, names);
    assert last in names && forall name <- front :: name in names;
    if d !in LoadedUser(files, last) {
      LoadedHas(files, front, d);
    }
  }

  // ---------- The operations ----------

  class DiskOperationsManagement {
    const userDirectory: Directory
    const place: Places
    var content: map<Path, string>

    constructor (place: Places, content: map<Path, string>)
      ensures this.place == place && this.content == content && fresh(userDirectory)
    {
      userDirectory := new Directory([]);
      this.place, this.content := place, content;
    }

    function View(): Disk
      reads this, userDirectory
    {
      Disk(Files(place, content), userDirectory.usernames)
    }

    method LoadAndUpdatePersistentData() returns (records: seq<PersistentData>)
      modifies this, userDirectory
      ensures records == Loaded(old(View()).files) && View() == Started(old(View()).files)
    {
      if DIRECTORY !in content {
        content := content[DIRECTORY := ""];
      }
      var usernames := ReadNames(content[DIRECTORY]);
      ghost var files := old(View()).files;
      assert usernames == Names(DirectoryOf(files));
      records := [];
      for i := 0 to |usernames|
        invariant View() == Disk(Guaranteed(files), old(userDirectory.usernames))
        invariant records == LoadedUsers(files, usernames[..i])
      {
        assert usernames[..i + 1][..i] == usernames[..i];
        var record := LoadUser(usernames[i]);
        if record.None? {
          continue;
        }
        records := records + [record.value];
      }
      assert usernames[..|usernames|] == usernames;
      userDirectory.usernames := usernames;
    }

    /** One round of the second loop. */
    method LoadUser(username: string) returns (record: Option<PersistentData>)
      ensures LoadedUser(Files(place, content), username) == if record.Some? then [record.value] else []
    {
      var path := place(username);
      if path.None? || path.value !in content {
        return None;
      }
      record := DecodeRecord(content[path.value], username);
    }

    method UpdateUserOnDisk(data: PersistentData)
      requires 4 * (2 + |data.followedBy|) < WORDS
      modifies this, userDirectory
      ensures View() == Updated(old(View()), data)
    {
      hide RecordBytes, Line;
      var added := userDirectory.AddUser(data.username);
      var path := place(data.username);
      if path.None? {
        return;
      }
      content := content[path.value := ""];
      var buffer := EncodeRecord(data);
      content := content[path.value := buffer[..]];
      if added {
        content := content[DIRECTORY := (if DIRECTORY in content then content[DIRECTORY] else "") + Line(data.username)];
      }
    }

    /** The batch that fn_disk_io has drained. */
    method UpdateUsersOnDisk(batch: seq<PersistentData>)
      requires forall i :: 0 <= i < |batch| ==> 4 * (2 + |batch[i].followedBy|) < WORDS
      modifies this, userDirectory
      ensures View() == DiskAfter(old(View()), batch)
    {
      hide Updated;
      for i := 0 to |batch|
        invariant View() == DiskAfter(old(View()), batch[..i])
      {
        assert batch[..i + 1][..i] == batch[..i];
        UpdateUserOnDisk(batch[i]);
      }
      assert batch[..|batch|] == batch;
    }
  }
}
