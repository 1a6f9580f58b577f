/**
 * The registry half of the installer transaction (cmd/installer/registry_snapshot.go,
 * uninstall_registration_windows.go, protocol_registration.go, and the registry steps of `runInstaller` in
 * cmd/installer/main.go).
 */
module InstallerRegistry {
  import opened Wrappers
  import Unicode

  /** A key below HKEY_CURRENT_USER as its names. */
  type Key = seq<string>

  datatype Data = Text(text: string) | Dword(number: nat) | OtherData

  /** The names of the values the product uses, and any other name. */
  datatype ValueName =
    | Default | DisplayName | DisplayVersion | Publisher | InstallLocation | DisplayIcon | UninstallString
    | ExecutableDigest | QuietUninstallString | UrlInfoAbout | UrlProtocol | NoModify | NoRepair | InstallDate
    | EstimatedSize
    | OtherName(name: string)

  datatype Cell = Cell(key: Key, name: ValueName)

  type Cells = map<Cell, Data>

  // ----- The keys and cells of the product -----

  const APP_PATHS: Key := ["Software", "Microsoft", "Windows", "CurrentVersion", "App Paths", "GhostFTP.exe"]
  const UNINSTALL: Key := ["Software", "Microsoft", "Windows", "CurrentVersion", "Uninstall", "GhostFTP"]
  const PROTOCOL: Key := ["Software", "Classes", "ghostftp"]
  const ICON: Key := PROTOCOL + ["DefaultIcon"]
  const SHELL: Key := PROTOCOL + ["shell"]
  const OPEN: Key := SHELL + ["open"]
  const COMMAND: Key := OPEN + ["command"]

  const TRACKED_STRINGS: seq<Cell> := [
    Cell(APP_PATHS, Default), Cell(UNINSTALL, DisplayName), Cell(UNINSTALL, DisplayVersion), Cell(UNINSTALL, Publisher),
    Cell(UNINSTALL, InstallLocation), Cell(UNINSTALL, DisplayIcon), Cell(UNINSTALL, UninstallString),
    Cell(UNINSTALL, ExecutableDigest), Cell(UNINSTALL, QuietUninstallString), Cell(UNINSTALL, UrlInfoAbout),
    Cell(PROTOCOL, Default), Cell(PROTOCOL, UrlProtocol), Cell(ICON, Default), Cell(COMMAND, Default)]

  const TRACKED_DWORDS: seq<Cell> := [Cell(UNINSTALL, NoModify), Cell(UNINSTALL, NoRepair)]

  const PROTOCOL_KEYS: seq<Key> := [PROTOCOL, ICON, SHELL, OPEN, COMMAND]

  /** The order in which protocol keys are removed. */
  const LEAF_TO_ROOT: seq<Key> := [COMMAND, OPEN, SHELL, ICON, PROTOCOL]

  /** The two values a registration writes although no snapshot holds them. */
  const INSTALL_DATE: Cell := Cell(UNINSTALL, InstallDate)
  const ESTIMATED_SIZE: Cell := Cell(UNINSTALL, EstimatedSize)

  predicate Tracked(c: Cell)
  {
    TrackedString(c) || TrackedDword(c)
  }

  predicate TrackedString(c: Cell)
  {
    match c.name
    case Default => c.key == APP_PATHS || c.key == PROTOCOL || c.key == ICON || c.key == COMMAND
    case UrlProtocol => c.key == PROTOCOL
    case NoModify | NoRepair | InstallDate | EstimatedSize | OtherName(_) => false
    case _ => c.key == UNINSTALL
  }

  predicate TrackedDword(c: Cell)
  {
    c.key == UNINSTALL && (c.name.NoModify? || c.name.NoRepair?)
  }

  lemma TrackedStringIsListed(c: Cell)
    requires TrackedString(c)
    ensures c in TRACKED_STRINGS
  {
    match c.name
    case Default =>
      assert TRACKED_STRINGS[0] == Cell(APP_PATHS, Default) && TRACKED_STRINGS[10] == Cell(PROTOCOL, Default);
      assert TRACKED_STRINGS[12] == Cell(ICON, Default) && TRACKED_STRINGS[13] == Cell(COMMAND, Default);
    case UrlProtocol => assert TRACKED_STRINGS[11] == c;
    case DisplayName => assert TRACKED_STRINGS[1] == c;
    case DisplayVersion => assert TRACKED_STRINGS[2] == c;
    case Publisher => assert TRACKED_STRINGS[3] == c;
    case InstallLocation => assert TRACKED_STRINGS[4] == c;
    case DisplayIcon => assert TRACKED_STRINGS[5] == c;
    case UninstallString => assert TRACKED_STRINGS[6] == c;
    case ExecutableDigest => assert TRACKED_STRINGS[7] == c;
    case QuietUninstallString => assert TRACKED_STRINGS[8] == c;
    case UrlInfoAbout => assert TRACKED_STRINGS[9] == c;
  }

  lemma ListedStringIsTracked(i: nat)
    requires i < |TRACKED_STRINGS|
    ensures TrackedString(TRACKED_STRINGS[i])
  {
  }

  /** The lists hold exactly the tracked cells. */
  lemma ListsAreTracked(c: Cell)
    ensures c in TRACKED_STRINGS <==> TrackedString(c)
    ensures c in TRACKED_DWORDS <==> TrackedDword(c)
  {
    if TrackedString(c) { TrackedStringIsListed(c); }
    if c in TRACKED_STRINGS {
      var i :| 0 <= i < |TRACKED_STRINGS| && TRACKED_STRINGS[i] == c;
      ListedStringIsTracked(i);
    }
    assert TRACKED_DWORDS[0] == Cell(UNINSTALL, NoModify) && TRACKED_DWORDS[1] == Cell(UNINSTALL, NoRepair);
  }

  /** The keys a registration may create, with everything above them. */
  predicate RunKey(k: Key)
  {
    k <= APP_PATHS || k <= UNINSTALL || k <= ICON || k <= COMMAND
  }

  /**
   * Below the protocol key a registration only creates tracked keys, and none of them below the ones removed before it.
   */
  lemma ProtocolRunKeys(k: Key)
    requires RunKey(k) && PROTOCOL <= k
    ensures k == PROTOCOL || k == ICON || k == SHELL || k == OPEN || k == COMMAND
  {
    assert PROTOCOL[1] == "Classes" && APP_PATHS[1] == "Microsoft" && UNINSTALL[1] == "Microsoft";
    assert "Classes"[0] == 'C' && "Microsoft"[0] == 'M';
    assert k[1] == "Classes";
    if k <= ICON {
      assert |k| == 3 || |k| == 4;
      assert k == ICON[..|k|];
      assert ICON[..3] == PROTOCOL && ICON[..4] == ICON;
    } else {
      assert k <= COMMAND;
      assert k == COMMAND[..|k|];
      assert COMMAND[..3] == PROTOCOL && COMMAND[..4] == SHELL && COMMAND[..5] == OPEN && COMMAND[..6] == COMMAND;
    }
  }

  predicate ProtocolKey(k: Key)
  {
    k == PROTOCOL || k == ICON || k == SHELL || k == OPEN || k == COMMAND
  }

  // ----- The registry -----

  function Parent(k: Key): Key
    requires k != []
  {
    k[..|k| - 1]
  }

  /** The key and everything above it. */
  function Above(k: Key): set<Key>
  {
    set i | 0 <= i <= |k| :: k[..i]
  }

  predicate Closed(keys: set<Key>)
  {
    forall k :: k in keys && k != [] ==> Parent(k) in keys
  }

  function At(cells: Cells, c: Cell): Option<Data>
  {
    if c in cells then Some(cells[c]) else None
  }

  /** The value is missing or of the expected type. */
  predicate Typed(cells: Cells, c: Cell, text: bool)
  {
    c in cells ==> if text then cells[c].Text? else cells[c].Dword?
  }

  predicate HasSubkey(keys: set<Key>, k: Key)
  {
    exists q :: q in keys && q != [] && Parent(q) == k
  }

  /** A registry: values only live in keys, and keys only below keys. */
  predicate Sound(keys: set<Key>, cells: Cells)
  {
    Closed(keys) && forall c :: c in cells ==> c.key in keys
  }

  lemma {:induction false} AboveInside(keys: set<Key>, k: Key)
    requires Closed(keys) && k in keys
    ensures Above(k) <= keys
    decreases |k|
  {
    forall i | 0 <= i <= |k| ensures k[..i] in keys {
      if i < |k| {
        AboveInside(keys, Parent(k));
        assert Parent(k)[..i] == k[..i];
        assert Parent(k)[..i] in Above(Parent(k));
      } else {
        assert k[..i] == k;
      }
    }
  }

  lemma AboveIsClosed(keys: set<Key>, k: Key)
    requires Closed(keys)
    ensures Closed(keys + Above(k)) && k in Above(k)
  {
    assert k[..|k|] == k;
    forall q | q in Above(k) && q != [] ensures Parent(q) in Above(k) {
      var i :| 0 <= i <= |k| && q == k[..i];
      assert Parent(q) == k[..i - 1];
    }
  }

  /** HKEY_CURRENT_USER. Any operation may fail unless the registry works. */
  class Registry {
    var keys: set<Key>
    var cells: Cells
    var works: bool

    predicate Valid()
      reads this
    {
      Sound(keys, cells)
    }

    method Fails() returns (failed: bool)
      ensures works ==> !failed
    {
      failed := *;
      failed := failed && !works;
    }

    method KeyExists(k: Key) returns (r: Result<bool, string>)
      ensures r.Ok? ==> r.value == (k in keys)
      ensures works ==> r.Ok?
    {
      var failed := Fails();
      if failed { return Err("open"); }
      return Ok(k in keys);
    }

    /** `GetRegistryString` and `GetRegistryDWORD`: a value of another type is an error. */
    method Get(c: Cell, text: bool) returns (r: Result<Option<Data>, string>)
      ensures r.Ok? ==> r.value == At(cells, c) && Typed(cells, c, text)
      ensures works && Typed(cells, c, text) ==> r.Ok?
    {
      var failed := Fails();
      if failed { return Err("open"); }
      var found := At(cells, c);
      if found.Some? && !(if text then found.value.Text? else found.value.Dword?) { return Err("type"); }
      return Ok(found);
    }

    /**
     * `SetRegistryString` and `SetRegistryDWORD`: the key is made first, with every key above it, and may stay when the
     * value fails.
     */
    method Set(c: Cell, data: Data) returns (ok: bool)
      requires Valid()
      modifies `keys, `cells
      ensures Valid() && old(keys) <= keys <= old(keys) + Above(c.key)
      ensures cells == old(cells) || cells == old(cells)[c := data]
      ensures ok ==> cells == old(cells)[c := data]
      ensures works ==> ok
    {
      AboveIsClosed(keys, c.key);
      var failed := Fails();
      if failed { return false; }
      keys := keys + Above(c.key);
      failed := Fails();
      if failed { return false; }
      cells := cells[c := data];
      return true;
    }

    /** `DeleteRegistryValue`: a missing value or key is no error. */
    method DeleteValue(c: Cell) returns (ok: bool)
      requires Valid()
      modifies `cells
      ensures Valid()
      ensures cells == old(cells) || cells == old(cells) - {c}
      ensures ok ==> cells == old(cells) - {c}
      ensures works ==> ok
    {
      var failed := Fails();
      if failed { return false; }
      cells := cells - {c};
      return true;
    }

    /** `DeleteRegistryKey`: a key with subkeys cannot be deleted; a missing key is no error. */
    method DeleteKey(k: Key) returns (ok: bool)
      requires Valid()
      modifies `keys, `cells
      ensures Valid()
      ensures (keys == old(keys) && cells == old(cells)) ||
              (!HasSubkey(old(keys), k) && keys == old(keys) - {k} && cells == WithoutKey(old(cells), k))
      ensures ok ==> keys == old(keys) - {k} && cells == WithoutKey(old(cells), k)
      ensures works ==> (ok <==> k !in old(keys) || !HasSubkey(old(keys), k))
    {
      var failed := Fails();
      if failed { return false; }
      if k !in keys {
        assert cells == WithoutKey(cells, k);
        return true;
      }
      if exists q :: q in keys && q != [] && Parent(q) == k { return false; }
      keys := keys - {k};
      cells := WithoutKey(cells, k);
      return true;
    }
  }

  function WithoutKey(cells: Cells, k: Key): Cells
  {
    map c | c in cells && c.key != k :: cells[c]
  }

  // ----- Registration -----

  datatype Op = Put(cell: Cell, data: Data) | Drop(cell: Cell)

  function Applied(cells: Cells, ops: seq<Op>): Cells
  {
    if ops == [] then cells
    else
      var before := Applied(cells, ops[..|ops| - 1]);
      match ops[|ops| - 1]
      case Put(c, data) => before[c := data]
      case Drop(c) => before - {c}
  }

  /** What a registration is about. */
  datatype Product = Product(
    appPath: string, folder: string, version: string, fullName: string, company: string, website: string,
    digest: string, installDate: string, sizeKiB: nat)

  function UninstallOps(p: Product): seq<Op>
  {
    [Put(Cell(UNINSTALL, DisplayName), Text(p.fullName)),
     Put(Cell(UNINSTALL, DisplayVersion), Text(p.version)),
     Put(Cell(UNINSTALL, Publisher), Text(p.company)),
     Put(Cell(UNINSTALL, InstallLocation), Text(p.folder)),
     Put(Cell(UNINSTALL, DisplayIcon), Text(p.appPath + ",0")),
     Put(Cell(UNINSTALL, UninstallString), Text("\"" + p.appPath + "\" --uninstall")),
     Put(Cell(UNINSTALL, ExecutableDigest), Text(p.digest)),
     Put(Cell(UNINSTALL, UrlInfoAbout), Text(p.website)),
     Put(INSTALL_DATE, Text(p.installDate)),
     Drop(Cell(UNINSTALL, QuietUninstallString)),
     Put(ESTIMATED_SIZE, Dword(p.sizeKiB)),
     Put(Cell(UNINSTALL, NoModify), Dword(1)),
     Put(Cell(UNINSTALL, NoRepair), Dword(1))]
  }

  function ProtocolOps(p: Product): seq<Op>
  {
    [Put(Cell(PROTOCOL, Default), Text("URL:Ghost FTP Protocol")),
     Put(Cell(PROTOCOL, UrlProtocol), Text("")),
     Put(Cell(ICON, Default), Text("\"" + p.appPath + "\",0")),
     Put(Cell(COMMAND, Default), Text("\"" + p.appPath + "\" \"%1\""))]
  }

  function AppPathsOps(p: Product): seq<Op>
  {
    [Put(Cell(APP_PATHS, Default), Text(p.appPath))]
  }

  /** Every registry write of a run, in order. */
  function AllOps(p: Product): seq<Op>
  {
    AppPathsOps(p) + UninstallOps(p) + ProtocolOps(p)
  }

  // ----- What a registration leaves -----

  /** The values below the uninstall key. */
  predicate UninstallSays(cells: Cells, key: Key, p: Product)
  {
    At(cells, Cell(key, DisplayName)) == Some(Text(p.fullName)) &&
    At(cells, Cell(key, DisplayVersion)) == Some(Text(p.version)) &&
    At(cells, Cell(key, Publisher)) == Some(Text(p.company)) &&
    At(cells, Cell(key, InstallLocation)) == Some(Text(p.folder)) &&
    At(cells, Cell(key, DisplayIcon)) == Some(Text(p.appPath + ",0")) &&
    At(cells, Cell(key, UninstallString)) == Some(Text("\"" + p.appPath + "\" --uninstall")) &&
    At(cells, Cell(key, ExecutableDigest)) == Some(Text(p.digest)) &&
    At(cells, Cell(key, UrlInfoAbout)) == Some(Text(p.website)) &&
    At(cells, Cell(key, InstallDate)) == Some(Text(p.installDate)) &&
    At(cells, Cell(key, QuietUninstallString)) == None &&
    At(cells, Cell(key, EstimatedSize)) == Some(Dword(p.sizeKiB)) &&
    At(cells, Cell(key, NoModify)) == Some(Dword(1)) && At(cells, Cell(key, NoRepair)) == Some(Dword(1))
  }

  /** The values that make the browser start the program for `ghostftp:` links. */
  predicate ProtocolSays(cells: Cells, key: Key, p: Product)
  {
    At(cells, Cell(key, Default)) == Some(Text("URL:Ghost FTP Protocol")) &&
    At(cells, Cell(key, UrlProtocol)) == Some(Text("")) &&
    At(cells, Cell(key + ["DefaultIcon"], Default)) == Some(Text("\"" + p.appPath + "\",0")) &&
    At(cells, Cell(key + ["shell", "open", "command"], Default)) == Some(Text("\"" + p.appPath + "\" \"%1\""))
  }

  /** Everything is registered where Windows looks for it. */
  predicate IsRegistered(cells: Cells, p: Product)
  {
    var windows := ["Software", "Microsoft", "Windows", "CurrentVersion"];
    At(cells, Cell(windows + ["App Paths", "GhostFTP.exe"], Default)) == Some(Text(p.appPath)) &&
    UninstallSays(cells, windows + ["Uninstall", "GhostFTP"], p) &&
    ProtocolSays(cells, ["Software", "Classes", "ghostftp"], p)
  }

  /** The value a write leaves. */
  function Left(op: Op): Option<Data>
  {
    match op
    case Put(_, data) => Some(data)
    case Drop(_) => None
  }

  /** What is written and not written again stays. */
  lemma {:induction false} LastWrite(cells: Cells, ops: seq<Op>, i: nat)
    requires i < |ops| && forall j :: i < j < |ops| ==> ops[j].cell != ops[i].cell
    ensures At(Applied(cells, ops), ops[i].cell) == Left(ops[i])
    decreases |ops|
  {
    if i < |ops| - 1 { LastWrite(cells, ops[..|ops| - 1], i); }
  }

  lemma {:induction false} NotWritten(cells: Cells, ops: seq<Op>, c: Cell)
    requires forall j :: 0 <= j < |ops| ==> ops[j].cell != c
    ensures At(Applied(cells, ops), c) == At(cells, c)
    decreases |ops|
  {
    if ops != [] { NotWritten(cells, ops[..|ops| - 1], c); }
  }

  /** Where a value comes among the writes below the uninstall key. */
  function Rank(name: ValueName): nat
  {
    match name
    case DisplayName => 0
    case DisplayVersion => 1
    case Publisher => 2
    case InstallLocation => 3
    case DisplayIcon => 4
    case UninstallString => 5
    case ExecutableDigest => 6
    case UrlInfoAbout => 7
    case InstallDate => 8
    case QuietUninstallString => 9
    case EstimatedSize => 10
    case NoModify => 11
    case NoRepair => 12
    case _ => 13
  }

  lemma UninstallRanks(p: Product)
    ensures |UninstallOps(p)| == 13
    ensures forall i :: 0 <= i < 13 ==>
              UninstallOps(p)[i].cell.key == UNINSTALL && Rank(UninstallOps(p)[i].cell.name) == i
  {
  }

  /** All writes go to different places below the uninstall key. */
  lemma UninstallWrite(cells: Cells, p: Product, i: nat)
    requires i < 13
    ensures |UninstallOps(p)| == 13
    ensures At(Applied(cells, UninstallOps(p)), UninstallOps(p)[i].cell) == Left(UninstallOps(p)[i])
  {
    UninstallRanks(p);
    LastWrite(cells, UninstallOps(p), i);
  }

  lemma UninstallWrites(cells: Cells, p: Product)
    ensures UninstallSays(Applied(cells, UninstallOps(p)), UNINSTALL, p)
  {
    forall i: nat | i < 13
      ensures At(Applied(cells, UninstallOps(p)), UninstallOps(p)[i].cell) == Left(UninstallOps(p)[i])
    {
      UninstallWrite(cells, p, i);
    }
    WritesSay(Applied(cells, UninstallOps(p)), p);
  }

  lemma WritesSay(after: Cells, p: Product)
    requires forall i: nat :: i < 13 ==> At(after, UninstallOps(p)[i].cell) == Left(UninstallOps(p)[i])
    ensures UninstallSays(after, UNINSTALL, p)
  {
    var ops := UninstallOps(p);
    assert ops[0].cell.name == DisplayName && ops[1].cell.name == DisplayVersion && ops[2].cell.name == Publisher;
    assert ops[3].cell.name == InstallLocation && ops[4].cell.name == DisplayIcon;
    assert ops[5].cell.name == UninstallString && ops[6].cell.name == ExecutableDigest;
    assert ops[7].cell.name == UrlInfoAbout && ops[8].cell.name == InstallDate;
    assert ops[9].cell.name == QuietUninstallString && ops[10].cell.name == EstimatedSize;
    assert ops[11].cell.name == NoModify && ops[12].cell.name == NoRepair;
  }

  lemma ProtocolWrites(cells: Cells, p: Product)
    ensures ProtocolSays(Applied(cells, ProtocolOps(p)), PROTOCOL, p)
  {
    var ops := ProtocolOps(p);
    assert |PROTOCOL| == 3 && |ICON| == 4 && |COMMAND| == 6;
    assert PROTOCOL + ["shell", "open", "command"] == COMMAND;
    forall i | 0 <= i < 4 ensures At(Applied(cells, ops), ops[i].cell) == Left(ops[i]) { LastWrite(cells, ops, i); }
    assert ops[0].cell == Cell(PROTOCOL, Default) && ops[1].cell == Cell(PROTOCOL, UrlProtocol);
    assert ops[2].cell == Cell(ICON, Default) && ops[3].cell == Cell(COMMAND, Default);
  }

  /** Writing the protocol leaves the other two groups alone. */
  lemma ProtocolLeaves(cells: Cells, p: Product, c: Cell)
    requires c.key == UNINSTALL || c.key == APP_PATHS
    ensures At(Applied(cells, ProtocolOps(p)), c) == At(cells, c)
  {
    ProtocolIsNotUninstall(PROTOCOL);
    ProtocolIsNotUninstall(ICON);
    ProtocolIsNotUninstall(COMMAND);
    NotWritten(cells, ProtocolOps(p), c);
  }

  lemma UninstallLeaves(cells: Cells, p: Product)
    ensures At(Applied(cells, UninstallOps(p)), Cell(APP_PATHS, Default)) == At(cells, Cell(APP_PATHS, Default))
  {
    UninstallRanks(p);
    NotWritten(cells, UninstallOps(p), Cell(APP_PATHS, Default));
  }

  lemma AllInThree(cells: Cells, p: Product)
    ensures Applied(cells, AllOps(p)) ==
            Applied(Applied(Applied(cells, AppPathsOps(p)), UninstallOps(p)), ProtocolOps(p))
  {
    AppliedTwice(cells, AppPathsOps(p) + UninstallOps(p), ProtocolOps(p));
    AppliedTwice(cells, AppPathsOps(p), UninstallOps(p));
  }

  /** A later group keeps what the uninstall key says. */
  lemma SaysStill(before: Cells, after: Cells, key: Key, p: Product)
    requires UninstallSays(before, key, p) && forall c: Cell :: c.key == key ==> At(after, c) == At(before, c)
    ensures UninstallSays(after, key, p)
  {
  }

  /** After all writes every value stands in its place, whatever was there before. */
  lemma AllIsRegistered(cells: Cells, p: Product)
    ensures IsRegistered(Applied(cells, AllOps(p)), p)
  {
    var app := Applied(cells, AppPathsOps(p));
    var both := Applied(app, UninstallOps(p));
    var all := Applied(both, ProtocolOps(p));
    assert Applied(cells, AllOps(p)) == all by { AllInThree(cells, p); }
    assert At(all, Cell(APP_PATHS, Default)) == Some(Text(p.appPath)) by {
      LastWrite(cells, AppPathsOps(p), 0);
      UninstallLeaves(app, p);
      ProtocolLeaves(both, p, Cell(APP_PATHS, Default));
    }
    assert UninstallSays(all, UNINSTALL, p) by {
      UninstallWrites(app, p);
      forall c: Cell | c.key == UNINSTALL ensures At(all, c) == At(both, c) { ProtocolLeaves(both, p, c); }
      SaysStill(both, all, UNINSTALL, p);
    }
    assert ProtocolSays(all, PROTOCOL, p) by { ProtocolWrites(both, p); }
    KeysAreTheirs();
  }

  lemma KeysAreTheirs()
    ensures APP_PATHS == ["Software", "Microsoft", "Windows", "CurrentVersion"] + ["App Paths", "GhostFTP.exe"]
    ensures UNINSTALL == ["Software", "Microsoft", "Windows", "CurrentVersion"] + ["Uninstall", "GhostFTP"]
    ensures PROTOCOL == ["Software", "Classes", "ghostftp"]
  {
  }

  /** The quoted text a command line begins with, and what follows it. */
  function FirstArgument(line: string): Option<(string, string)>
  {
    if line == "" || line[0] != '"' then None else QuotedText(line[1..])
  }

  function QuotedText(s: string): Option<(string, string)>
  {
    if s == "" then None
    else if s[0] == '"' then Some(("", s[1..]))
    else
      var more := QuotedText(s[1..]);
      if more == None then None else Some(([s[0]] + more.value.0, more.value.1))
  }

  lemma {:induction false} QuotedUpTo(path: string, rest: string)
    ensures '"' !in path ==> QuotedText(path + "\"" + rest) == Some((path, rest))
    ensures '"' in path ==> QuotedText(path + "\"" + rest).Some? && |QuotedText(path + "\"" + rest).value.0| < |path|
  {
    var s := path + "\"" + rest;
    if path == "" {
      assert s[1..] == rest;
    } else {
      assert s[1..] == path[1..] + "\"" + rest && s[0] == path[0];
      QuotedUpTo(path[1..], rest);
      assert path == [path[0]] + path[1..];
    }
  }

  /** A quoted path is taken as one argument, followed by the rest, exactly when it holds no quote. */
  lemma PathIsOneArgument(path: string, rest: string)
    ensures FirstArgument("\"" + path + "\"" + rest) == Some((path, rest)) <==> '"' !in path
  {
    var line := "\"" + path + "\"" + rest;
    assert line[1..] == path + "\"" + rest;
    QuotedUpTo(path, rest);
  }

  /** The cells a registration touches: the tracked ones and the two that no snapshot holds. */
  predicate Touched(c: Cell)
  {
    Tracked(c) || c == INSTALL_DATE || c == ESTIMATED_SIZE
  }

  predicate Contained(ops: seq<Op>)
  {
    forall i :: 0 <= i < |ops| ==> Touched(ops[i].cell) && RunKey(ops[i].cell.key)
  }

  lemma OpsAreContained(p: Product)
    ensures Contained(UninstallOps(p)) && Contained(ProtocolOps(p)) && Contained(AppPathsOps(p))
  {
    assert PROTOCOL <= ICON;
  }

  /** What a registration that stopped anywhere may have done to a registry. */
  ghost predicate Stopped(keys0: set<Key>, cells0: Cells, keys: set<Key>, cells: Cells)
  {
    keys0 <= keys && (forall k :: k in keys ==> k in keys0 || RunKey(k)) &&
    forall c :: !Touched(c) ==> At(cells, c) == At(cells0, c)
  }

  lemma AboveRunKeys(k: Key, q: Key)
    requires RunKey(k) && q in Above(k)
    ensures RunKey(q)
  {
  }

  lemma {:induction false} AppliedOutside(cells: Cells, ops: seq<Op>, c: Cell)
    requires Contained(ops) && !Touched(c)
    ensures At(Applied(cells, ops), c) == At(cells, c)
    decreases ops
  {
    if ops != [] { AppliedOutside(cells, ops[..|ops| - 1], c); }
  }

  /** The first `done` writes took effect; keys for one more may have been made. */
  ghost predicate Ran(keys0: set<Key>, cells0: Cells, keys: set<Key>, cells: Cells, ops: seq<Op>, done: nat)
  {
    done <= |ops| && cells == Applied(cells0, ops[..done]) && keys0 <= keys &&
    forall k :: k in keys ==> k in keys0 || RunKey(k)
  }

  lemma RanOn(keys0: set<Key>, cells0: Cells, keys1: set<Key>, cells1: Cells, keys: set<Key>, cells: Cells, a: seq<Op>,
              b: seq<Op>, more: nat)
    requires Ran(keys0, cells0, keys1, cells1, a, |a|) && Ran(keys1, cells1, keys, cells, b, more)
    ensures Ran(keys0, cells0, keys, cells, a + b, |a| + more)
  {
    assert a[..|a|] == a && (a + b)[..|a| + more] == a + b[..more];
    AppliedTwice(cells0, a, b[..more]);
  }

  lemma RanShort(keys0: set<Key>, cells0: Cells, keys: set<Key>, cells: Cells, a: seq<Op>, b: seq<Op>, done: nat)
    requires Ran(keys0, cells0, keys, cells, a, done)
    ensures Ran(keys0, cells0, keys, cells, a + b, done)
  {
    assert (a + b)[..done] == a[..done];
  }

  lemma RanIsStopped(keys0: set<Key>, cells0: Cells, keys: set<Key>, cells: Cells, ops: seq<Op>, done: nat)
    requires Contained(ops) && Ran(keys0, cells0, keys, cells, ops, done)
    ensures Stopped(keys0, cells0, keys, cells)
  {
    forall c | !Touched(c) ensures At(cells, c) == At(cells0, c) { AppliedOutside(cells0, ops[..done], c); }
  }

  /** A sequence of registry writes that stops at the first failure. */
  method RunSteps(reg: Registry, ops: seq<Op>) returns (ok: bool, ghost done: nat)
    requires reg.Valid() && Contained(ops)
    modifies reg`keys, reg`cells
    ensures reg.Valid() && (ok ==> done == |ops|) && (reg.works ==> ok)
    ensures Ran(old(reg.keys), old(reg.cells), reg.keys, reg.cells, ops, done)
  {
    var i := 0;
    while i < |ops|
      invariant 0 <= i <= |ops| && reg.Valid()
      invariant reg.cells == Applied(old(reg.cells), ops[..i])
      invariant old(reg.keys) <= reg.keys && forall k :: k in reg.keys ==> k in old(reg.keys) || RunKey(k)
    {
      assert ops[..i + 1][..i] == ops[..i] && ops[..i + 1][i] == ops[i];
      ghost var cells := reg.cells;
      match ops[i] {
        case Put(c, data) =>
          ok := reg.Set(c, data);
          forall k | k in Above(c.key) ensures RunKey(k) { AboveRunKeys(c.key, k); }
        case Drop(c) =>
          ok := reg.DeleteValue(c);
      }
      if !ok {
        done := if reg.cells == cells then i else i + 1;
        return;
      }
      i := i + 1;
    }
    assert ops[..|ops|] == ops;
    return true, |ops|;
  }

  /** `browserProtocolCommand` refuses these paths. */
  predicate UnsafePath(path: string)
  {
    Unicode.AllSpace(path) || '"' in path || '\r' in path || '\n' in path || '\0' in path
  }

  /**
   * `register`, `registerIntegratedUninstall` and `registerBrowserProtocol`: some prefix of all the writes takes
   * effect. `measured` when the digest and the size of the installed file can be read, which the second group needs.
   */
  method Register(reg: Registry, p: Product, measured: bool) returns (ok: bool, ghost done: nat)
    requires reg.Valid()
    modifies reg`keys, reg`cells
    ensures reg.Valid() && done <= |AllOps(p)| && (ok ==> done == |AllOps(p)|)
    ensures reg.cells == Applied(old(reg.cells), AllOps(p)[..done])
    ensures Stopped(old(reg.keys), old(reg.cells), reg.keys, reg.cells)
    ensures !measured ==> done <= |AppPathsOps(p)|
    ensures UnsafePath(p.appPath) ==> done <= |AppPathsOps(p) + UninstallOps(p)|
    ensures reg.works ==>
              (ok <==> measured && (exists ch :: ch in p.appPath && !Unicode.Space(ch)) && '"' !in p.appPath &&
                       '\r' !in p.appPath && '\n' !in p.appPath && '\0' !in p.appPath)
    ensures ok ==> IsRegistered(reg.cells, p)
  {
    OpsAreContained(p);
    ok, done := RunGroups(reg, AppPathsOps(p), UninstallOps(p), ProtocolOps(p), !measured, UnsafePath(p.appPath));
    RanIsStopped(old(reg.keys), old(reg.cells), reg.keys, reg.cells, AllOps(p), done);
    if ok {
      assert AllOps(p)[..done] == AllOps(p);
      AllIsRegistered(old(reg.cells), p);
    }
  }

  /** Three groups of writes; the second and the third are not attempted when what they write cannot be found out. */
  method RunGroups(reg: Registry, a: seq<Op>, b: seq<Op>, c: seq<Op>, stopB: bool, stopC: bool)
    returns (ok: bool, ghost done: nat)
    requires reg.Valid() && Contained(a) && Contained(b) && Contained(c)
    modifies reg`keys, reg`cells
    ensures reg.Valid() && (ok ==> done == |a + b + c|)
    ensures (stopB ==> done <= |a|) && (stopC ==> done <= |a + b|)
    ensures Ran(old(reg.keys), old(reg.cells), reg.keys, reg.cells, a + b + c, done)
    ensures reg.works ==> (ok <==> !stopB && !stopC)
  {
    ghost var keys0, cells0 := reg.keys, reg.cells;
    ok, done := RunSteps(reg, a);
    if !ok {
      RanShort(keys0, cells0, reg.keys, reg.cells, a, b, done);
      RanShort(keys0, cells0, reg.keys, reg.cells, a + b, c, done);
      return;
    }
    ok, done := RunAfter(reg, a, b, stopB, keys0, cells0);
    if !ok {
      RanShort(keys0, cells0, reg.keys, reg.cells, a + b, c, done);
      return;
    }
    ok, done := RunAfter(reg, a + b, c, stopC, keys0, cells0);
  }

  /** One more group after the writes `a`. */
  method RunAfter(reg: Registry, ghost a: seq<Op>, b: seq<Op>, stop: bool, ghost keys0: set<Key>, ghost cells0: Cells)
    returns (ok: bool, ghost done: nat)
    requires reg.Valid() && Contained(b) && Ran(keys0, cells0, reg.keys, reg.cells, a, |a|)
    modifies reg`keys, reg`cells
    ensures reg.Valid() && (ok ==> done == |a + b|) && (stop ==> !ok && done == |a|) && done <= |a + b|
    ensures Ran(keys0, cells0, reg.keys, reg.cells, a + b, done)
    ensures reg.works ==> (ok <==> !stop)
  {
    if stop {
      RanShort(keys0, cells0, reg.keys, reg.cells, a, b, |a|);
      return false, |a|;
    }
    ghost var keys1, cells1 := reg.keys, reg.cells;
    ok, done := RunSteps(reg, b);
    RanOn(keys0, cells0, keys1, cells1, reg.keys, reg.cells, a, b, done);
    done := |a| + done;
  }

  lemma {:induction false} AppliedTwice(cells: Cells, a: seq<Op>, b: seq<Op>)
    ensures Applied(cells, a + b) == Applied(Applied(cells, a), b)
    decreases b
  {
    if b == [] {
      assert a + b == a;
    } else {
      assert (a + b)[..|a + b| - 1] == a + b[..|b| - 1];
      AppliedTwice(cells, a, b[..|b| - 1]);
    }
  }

  // ----- The snapshot -----

  datatype SavedValue = SavedValue(cell: Cell, data: Option<Data>)
  datatype SavedKey = SavedKey(key: Key, existed: bool)
  datatype Snapshot = Snapshot(strings: seq<SavedValue>, dwords: seq<SavedValue>, keys: seq<SavedKey>)

  /** The saved values are those of the cells, in the order of the list. */
  predicate SavesValues(saved: seq<SavedValue>, list: seq<Cell>, cells: Cells)
  {
    |saved| <= |list| && forall i :: 0 <= i < |saved| ==> saved[i] == SavedValue(list[i], At(cells, list[i]))
  }

  predicate SavesKeys(saved: seq<SavedKey>, keys: set<Key>)
  {
    |saved| <= |PROTOCOL_KEYS| &&
    forall i :: 0 <= i < |saved| ==> saved[i] == SavedKey(PROTOCOL_KEYS[i], PROTOCOL_KEYS[i] in keys)
  }

  /** The snapshot shows this registry. */
  predicate Shows(snap: Snapshot, keys: set<Key>, cells: Cells)
  {
    SavesValues(snap.strings, TRACKED_STRINGS, cells) && |snap.strings| == |TRACKED_STRINGS| &&
    SavesValues(snap.dwords, TRACKED_DWORDS, cells) && |snap.dwords| == |TRACKED_DWORDS| &&
    SavesKeys(snap.keys, keys) && |snap.keys| == |PROTOCOL_KEYS|
  }

  /** Every tracked value is missing or of its type: otherwise nothing is started. */
  predicate AllTyped(cells: Cells)
  {
    (forall c :: c in TRACKED_STRINGS ==> Typed(cells, c, true)) &&
    forall c :: c in TRACKED_DWORDS ==> Typed(cells, c, false)
  }

  method CaptureValues(reg: Registry, list: seq<Cell>, text: bool) returns (r: Option<seq<SavedValue>>)
    ensures r.Some? ==> SavesValues(r.value, list, reg.cells) && |r.value| == |list|
    ensures r.Some? ==> forall c :: c in list ==> Typed(reg.cells, c, text)
    ensures reg.works && (forall c :: c in list ==> Typed(reg.cells, c, text)) ==> r.Some?
  {
    var out: seq<SavedValue> := [];
    while |out| < |list|
      invariant SavesValues(out, list, reg.cells)
      invariant forall i :: 0 <= i < |out| ==> Typed(reg.cells, list[i], text)
    {
      var v := reg.Get(list[|out|], text);
      if v.Err? { return None; }
      out := out + [SavedValue(list[|out|], v.value)];
    }
    return Some(out);
  }

  /** `captureRegistrySnapshot` */
  method Capture(reg: Registry) returns (r: Option<Snapshot>)
    ensures r.Some? ==> Shows(r.value, reg.keys, reg.cells)
    ensures r.Some? ==> AllTyped(reg.cells)
    ensures reg.works ==> (r.Some? <==> AllTyped(reg.cells))
  {
    var keys: seq<SavedKey> := [];
    while |keys| < |PROTOCOL_KEYS|
      invariant SavesKeys(keys, reg.keys)
    {
      var existed := reg.KeyExists(PROTOCOL_KEYS[|keys|]);
      if existed.Err? { return None; }
      keys := keys + [SavedKey(PROTOCOL_KEYS[|keys|], existed.value)];
    }
    var strings := CaptureValues(reg, TRACKED_STRINGS, true);
    if strings.None? { return None; }
    var dwords := CaptureValues(reg, TRACKED_DWORDS, false);
    if dwords.None? { return None; }
    return Some(Snapshot(strings.value, dwords.value, keys));
  }

  /** `keyExisted`: an untracked key counts as existing. */
  function KeyExisted(saved: seq<SavedKey>, k: Key): bool
  {
    if saved == [] then true else if saved[0].key == k then saved[0].existed else KeyExisted(saved[1..], k)
  }

  lemma {:induction false} KeyExistedFrom(saved: seq<SavedKey>, k: Key, i: nat)
    requires i < |saved| && saved[i].key == k && forall j :: 0 <= j < i ==> saved[j].key != k
    ensures KeyExisted(saved, k) == saved[i].existed
    decreases i
  {
    if i > 0 { KeyExistedFrom(saved[1..], k, i - 1); }
  }

  lemma {:induction false} UntrackedExisted(saved: seq<SavedKey>, k: Key)
    requires forall j :: 0 <= j < |saved| ==> saved[j].key != k
    ensures KeyExisted(saved, k)
  {
    if saved != [] { UntrackedExisted(saved[1..], k); }
  }

  /** A snapshot knows for each protocol key whether it was there, and takes every other key for existing. */
  lemma SnapshotKnowsKeys(snap: Snapshot, keys: set<Key>, cells: Cells, k: Key)
    requires Shows(snap, keys, cells)
    ensures KeyExisted(snap.keys, k) <==> k in keys || !ProtocolKey(k)
  {
    assert |PROTOCOL| == 3 && |ICON| == 4 && |SHELL| == 4 && |OPEN| == 5 && |COMMAND| == 6;
    assert ICON[3] == "DefaultIcon" && SHELL[3] == "shell" && |"DefaultIcon"| != |"shell"|;
    assert forall i :: 0 <= i < 5 ==> snap.keys[i].key == PROTOCOL_KEYS[i];
    if k == PROTOCOL {
      KeyExistedFrom(snap.keys, k, 0);
    } else if k == ICON {
      KeyExistedFrom(snap.keys, k, 1);
    } else if k == SHELL {
      KeyExistedFrom(snap.keys, k, 2);
    } else if k == OPEN {
      KeyExistedFrom(snap.keys, k, 3);
    } else if k == COMMAND {
      KeyExistedFrom(snap.keys, k, 4);
    } else {
      UntrackedExisted(snap.keys, k);
    }
  }

  // ----- Restoring -----

  /** The protocol keys that were not there, each after the ones below it. */
  ghost predicate RemovalOrder(out: seq<Key>, keys0: set<Key>)
  {
    (forall k {:trigger ProtocolKey(k)} :: k in out <==> ProtocolKey(k) && k !in keys0) && ChildrenFirst(out, keys0)
  }

  ghost predicate ChildrenFirst(out: seq<Key>, keys0: set<Key>)
  {
    forall i, q {:trigger out[i], ProtocolKey(q)} ::
      0 <= i < |out| && ProtocolKey(q) && q !in keys0 && q != [] && Parent(q) == out[i] ==> q in out[..i]
  }

  lemma LeafToRootOrder(j: nat, q: Key)
    requires j < |LEAF_TO_ROOT| && ProtocolKey(q) && q != [] && Parent(q) == LEAF_TO_ROOT[j]
    ensures q in LEAF_TO_ROOT[..j]
  {
    assert |PROTOCOL| == 3 && |ICON| == 4 && |SHELL| == 4 && |OPEN| == 5 && |COMMAND| == 6;
    assert ICON[3] == "DefaultIcon" && SHELL[3] == "shell" && |"DefaultIcon"| != |"shell"|;
    assert |LEAF_TO_ROOT[j]| >= 3;
    assert Parent(COMMAND) == OPEN && Parent(OPEN) == SHELL && Parent(SHELL) == PROTOCOL && Parent(ICON) == PROTOCOL;
    if q == COMMAND {
      assert LEAF_TO_ROOT[..j][0] == COMMAND;
    } else if q == OPEN {
      assert LEAF_TO_ROOT[..j][1] == OPEN;
    } else if q == SHELL {
      assert LEAF_TO_ROOT[..j][2] == SHELL;
    } else if q == ICON {
      assert LEAF_TO_ROOT[..j][3] == ICON;
    }
  }

  lemma LeafToRootIsAll(k: Key)
    ensures k in LEAF_TO_ROOT <==> ProtocolKey(k)
  {
    assert LEAF_TO_ROOT[0] == COMMAND && LEAF_TO_ROOT[1] == OPEN && LEAF_TO_ROOT[2] == SHELL && LEAF_TO_ROOT[3] == ICON;
    assert LEAF_TO_ROOT[4] == PROTOCOL;
  }

  /** `protocolKeysToRemove` */
  method ProtocolKeysToRemove(snap: Snapshot, ghost keys0: set<Key>, ghost cells0: Cells) returns (out: seq<Key>)
    requires Shows(snap, keys0, cells0)
    ensures RemovalOrder(out, keys0)
  {
    out := [];
    var j := 0;
    while j < |LEAF_TO_ROOT|
      invariant 0 <= j <= |LEAF_TO_ROOT|
      invariant forall k :: k in out <==> k in LEAF_TO_ROOT[..j] && k !in keys0
      invariant ChildrenFirst(out, keys0)
    {
      var k := LEAF_TO_ROOT[j];
      assert LEAF_TO_ROOT[..j + 1] == LEAF_TO_ROOT[..j] + [k];
      LeafToRootIsAll(k);
      SnapshotKnowsKeys(snap, keys0, cells0, k);
      if !KeyExisted(snap.keys, k) {
        forall q | ProtocolKey(q) && q !in keys0 && q != [] && Parent(q) == k
          ensures q in out
        {
          LeafToRootOrder(j, q);
        }
        OneMoreChild(out, keys0, k);
        out := out + [k];
      }
      j := j + 1;
    }
    forall k ensures k in out <==> ProtocolKey(k) && k !in keys0 { LeafToRootIsAll(k); }
  }

  lemma OneMoreChild(out: seq<Key>, keys0: set<Key>, k: Key)
    requires ChildrenFirst(out, keys0)
    requires forall q {:trigger ProtocolKey(q)} :: ProtocolKey(q) && q !in keys0 && q != [] && Parent(q) == k ==>
               q in out
    ensures ChildrenFirst(out + [k], keys0)
  {
    var after := out + [k];
    forall i, q | 0 <= i < |after| && ProtocolKey(q) && q !in keys0 && q != [] && Parent(q) == after[i]
      ensures q in after[..i]
    {
      if i < |out| {
        assert q in out[..i] && after[..i] == out[..i];
      } else {
        assert after[..i] == out;
      }
    }
  }

  /** Each cell of the list gets back its value, or its absence; the others stay. */
  ghost predicate ValuesBack(list: seq<Cell>, cells0: Cells, before: Cells, after: Cells)
  {
    forall c {:trigger At(after, c)} :: At(after, c) == if c in list then At(cells0, c) else At(before, c)
  }

  lemma OneValueBack(list: seq<Cell>, c: Cell, cells0: Cells, before: Cells, middle: Cells, after: Cells)
    requires ValuesBack(list, cells0, before, middle)
    requires after == (if At(cells0, c).Some? then middle[c := At(cells0, c).value] else middle - {c})
    ensures ValuesBack(list + [c], cells0, before, after)
  {
    forall d ensures At(after, d) == if d in list + [c] then At(cells0, d) else At(before, d) {
      assert At(middle, d) == if d in list then At(cells0, d) else At(before, d);
    }
  }

  method RestoreValues(reg: Registry, saved: seq<SavedValue>, list: seq<Cell>, ghost keys0: set<Key>,
                       ghost cells0: Cells)
    returns (ok: bool)
    requires reg.Valid() && Sound(keys0, cells0) && keys0 <= reg.keys && SavesValues(saved, list, cells0)
    requires |saved| == |list|
    modifies reg`keys, reg`cells
    ensures reg.Valid() && reg.keys == old(reg.keys)
    ensures reg.works ==> ok && ValuesBack(list, cells0, old(reg.cells), reg.cells)
  {
    ok := true;
    var i := 0;
    while i < |saved|
      invariant 0 <= i <= |saved| && reg.Valid() && reg.keys == old(reg.keys)
      invariant reg.works ==> ok && ValuesBack(list[..i], cells0, old(reg.cells), reg.cells)
    {
      assert list[..i + 1] == list[..i] + [list[i]];
      var done: bool;
      ghost var cells := reg.cells;
      if saved[i].data.Some? {
        AboveInside(keys0, saved[i].cell.key);
        done := reg.Set(saved[i].cell, saved[i].data.value);
      } else {
        done := reg.DeleteValue(saved[i].cell);
      }
      if reg.works { OneValueBack(list[..i], list[i], cells0, old(reg.cells), cells, reg.cells); }
      ok := ok && done;
      i := i + 1;
    }
    assert list[..i] == list;
  }

  /** The keys of the list are gone, and what was in them; the rest stays. */
  ghost predicate KeysGone(list: seq<Key>, keys: set<Key>, cells: Cells, keys1: set<Key>, cells1: Cells)
  {
    (forall k :: k in keys1 <==> k in keys && k !in list) &&
    forall c {:trigger At(cells1, c)} :: At(cells1, c) == if c.key in list then None else At(cells, c)
  }

  lemma OneKeyGone(list: seq<Key>, k: Key, keys: set<Key>, cells: Cells, keys1: set<Key>, cells1: Cells)
    requires KeysGone(list, keys, cells, keys1, cells1)
    ensures KeysGone(list + [k], keys, cells, keys1 - {k}, WithoutKey(cells1, k))
  {
    forall c ensures At(WithoutKey(cells1, k), c) == if c.key in list + [k] then None else At(cells, c) {
      assert At(cells1, c) == if c.key in list then None else At(cells, c);
    }
  }

  /** Removing protocol keys in order never meets a key that still has a subkey. */
  method RemoveKeys(reg: Registry, out: seq<Key>, ghost keys0: set<Key>) returns (ok: bool)
    requires reg.Valid() && Closed(keys0) && RemovalOrder(out, keys0)
    requires forall k :: k in reg.keys ==> k in keys0 || RunKey(k)
    modifies reg`keys, reg`cells
    ensures reg.Valid()
    ensures reg.works ==> ok && KeysGone(out, old(reg.keys), old(reg.cells), reg.keys, reg.cells)
  {
    ok := true;
    var i := 0;
    while i < |out|
      invariant 0 <= i <= |out| && reg.Valid() && reg.keys <= old(reg.keys)
      invariant reg.works ==> ok && KeysGone(out[..i], old(reg.keys), old(reg.cells), reg.keys, reg.cells)
    {
      assert out[..i + 1] == out[..i] + [out[i]];
      if reg.works { NoSubkeyLeft(out, i, keys0, reg.keys); }
      ghost var keys, cells := reg.keys, reg.cells;
      var done := reg.DeleteKey(out[i]);
      if reg.works { OneKeyGone(out[..i], out[i], old(reg.keys), old(reg.cells), keys, cells); }
      ok := ok && done;
      i := i + 1;
    }
    assert out[..i] == out;
  }

  lemma NoSubkeyLeft(out: seq<Key>, i: nat, keys0: set<Key>, keys: set<Key>)
    requires i < |out| && Closed(keys0) && RemovalOrder(out, keys0)
    requires forall k :: k in keys ==> (k in keys0 || RunKey(k)) && k !in out[..i]
    ensures !HasSubkey(keys, out[i])
  {
    assert out[i] in out;
    assert ProtocolKey(out[i]);
    forall q | q in keys && q != [] ensures Parent(q) != out[i] {
      if Parent(q) == out[i] {
        assert q !in keys0 && RunKey(q);
        assert out[i] == q[..|q| - 1];
        BelowProtocol(out[i], q);
        ProtocolRunKeys(q);
        assert ProtocolKey(q);
      }
    }
  }

  lemma BelowProtocol(k: Key, q: Key)
    requires ProtocolKey(k) && k <= q
    ensures PROTOCOL <= q
  {
    assert PROTOCOL <= ICON && PROTOCOL <= SHELL && SHELL <= OPEN && OPEN <= COMMAND;
    assert PROTOCOL <= k;
  }

  /**
   * What restoring a snapshot of `keys0` and `cells0` does to a registry `keys` and `cells` that a stopped registration
   * left.
   */
  ghost predicate RestoredFrom(keys0: set<Key>, cells0: Cells, keys: set<Key>, cells: Cells, keys1: set<Key>,
                               cells1: Cells)
  {
    (forall c {:trigger At(cells1, c)} :: At(cells1, c) == if Tracked(c) then At(cells0, c) else At(cells, c)) &&
    forall k :: k in keys1 <==> k in keys && (ProtocolKey(k) ==> k in keys0)
  }

  lemma RestoringAll(keys0: set<Key>, cells0: Cells, keys: set<Key>, cells: Cells, mid0: Cells, mid1: Cells,
                     out: seq<Key>,
                     keys1: set<Key>, cells1: Cells)
    requires Sound(keys0, cells0) && Stopped(keys0, cells0, keys, cells)
    requires ValuesBack(TRACKED_STRINGS, cells0, cells, mid0) && ValuesBack(TRACKED_DWORDS, cells0, mid0, mid1)
    requires RemovalOrder(out, keys0) && KeysGone(out, keys, mid1, keys1, cells1)
    ensures RestoredFrom(keys0, cells0, keys, cells, keys1, cells1)
  {
    forall c ensures At(cells1, c) == if Tracked(c) then At(cells0, c) else At(cells, c) {
      ListsAreTracked(c);
      assert At(mid0, c) == if c in TRACKED_STRINGS then At(cells0, c) else At(cells, c);
      assert At(mid1, c) == if c in TRACKED_DWORDS then At(cells0, c) else At(mid0, c);
      if c.key in out {
        assert ProtocolKey(c.key);
        assert At(cells0, c) == None;
        if !Tracked(c) { ProtocolIsNotUninstall(c.key); }
      }
    }
    forall k ensures k in keys1 <==> k in keys && (ProtocolKey(k) ==> k in keys0) {
      if k in keys && ProtocolKey(k) { assert k in out <==> k !in keys0; }
    }
  }

  lemma ProtocolIsNotUninstall(k: Key)
    requires ProtocolKey(k)
    ensures k != UNINSTALL && k != APP_PATHS
  {
    BelowProtocol(k, k);
    assert k[1] == PROTOCOL[1] == "Classes" && "Classes"[0] == 'C';
    assert UNINSTALL[1] == APP_PATHS[1] == "Microsoft" && "Microsoft"[0] == 'M';
  }

  /** `restore` */
  method Restore(reg: Registry, snap: Snapshot, ghost keys0: set<Key>, ghost cells0: Cells) returns (ok: bool)
    requires reg.Valid() && Sound(keys0, cells0) && Shows(snap, keys0, cells0)
    requires Stopped(keys0, cells0, reg.keys, reg.cells)
    modifies reg`keys, reg`cells
    ensures reg.Valid()
    ensures reg.works ==> ok && RestoredFrom(keys0, cells0, old(reg.keys), old(reg.cells), reg.keys, reg.cells)
  {
    var ok0 := RestoreValues(reg, snap.strings, TRACKED_STRINGS, keys0, cells0);
    ghost var mid0 := reg.cells;
    var ok1 := RestoreValues(reg, snap.dwords, TRACKED_DWORDS, keys0, cells0);
    ghost var mid1 := reg.cells;
    var out := ProtocolKeysToRemove(snap, keys0, cells0);
    var ok2 := RemoveKeys(reg, out, keys0);
    if reg.works {
      RestoringAll(keys0, cells0, old(reg.keys), old(reg.cells), mid0, mid1, out, reg.keys, reg.cells);
    }
    return ok0 && ok1 && ok2;
  }

  /** A registration makes no key below App Paths. */
  lemma NothingBelowAppPaths(k: Key)
    requires k != [] && Parent(k) == APP_PATHS
    ensures !RunKey(k)
  {
    assert |APP_PATHS| == 6 && |UNINSTALL| == 6 && |ICON| == 4 && |COMMAND| == 6 && |k| == 7;
  }

  /** The App Paths key itself is deleted: on a fresh install, unless it has subkeys. */
  ghost predicate DropsAppPaths(fresh0: bool, keys0: set<Key>)
  {
    fresh0 && !HasSubkey(keys0, APP_PATHS)
  }

  /** Cells that a rollback does not bring back. */
  predicate Escapes(c: Cell, dropped: bool)
  {
    c == INSTALL_DATE || c == ESTIMATED_SIZE || (dropped && c.key == APP_PATHS)
  }

  /** The registry steps of the rollback in `runInstaller`. */
  method Rollback(reg: Registry, snap: Snapshot, fresh0: bool, ghost keys0: set<Key>, ghost cells0: Cells)
    returns (ok: bool)
    requires reg.Valid() && Sound(keys0, cells0) && Shows(snap, keys0, cells0)
    requires Stopped(keys0, cells0, reg.keys, reg.cells)
    modifies reg`keys, reg`cells
    ensures reg.Valid()
    ensures reg.works ==> (ok <==> !fresh0 || DropsAppPaths(fresh0, keys0))
    ensures reg.works ==> forall c :: !Escapes(c, DropsAppPaths(fresh0, keys0)) ==> At(reg.cells, c) == At(cells0, c)
    ensures var app := Cell(APP_PATHS, Default);
            reg.works ==>
              (At(reg.cells, app) == At(cells0, app) <==> !DropsAppPaths(fresh0, keys0) || At(cells0, app) == None)
    ensures reg.works ==>
              forall c :: c == INSTALL_DATE || c == ESTIMATED_SIZE ==> At(reg.cells, c) == At(old(reg.cells), c)
    ensures reg.works && DropsAppPaths(fresh0, keys0) ==> APP_PATHS !in reg.keys
    ensures reg.works && DropsAppPaths(fresh0, keys0) ==>
              forall c: Cell :: c.key == APP_PATHS ==> At(reg.cells, c) == None
    ensures reg.works ==> forall k :: ProtocolKey(k) ==> (k in reg.keys <==> k in keys0)
    ensures reg.works ==> forall k :: k in keys0 && !(DropsAppPaths(fresh0, keys0) && k == APP_PATHS) ==> k in reg.keys
    ensures reg.works ==> forall k :: k in reg.keys ==> k in keys0 || (RunKey(k) && !(PROTOCOL <= k))
  {
    ok := Restore(reg, snap, keys0, cells0);
    ghost var keys1, cells1 := reg.keys, reg.cells;
    if fresh0 {
      if reg.works { SubkeysAsBefore(keys0, cells0, old(reg.keys), old(reg.cells), keys1, cells1); }
      var dropped := reg.DeleteKey(APP_PATHS);
      ok := ok && dropped;
    }
    if reg.works {
      RollbackOutcome(keys0, cells0, old(reg.keys), old(reg.cells), keys1, cells1);
      forall c: Cell ensures c.key == APP_PATHS || At(reg.cells, c) == At(cells1, c) { }
      ProtocolIsNotUninstall(PROTOCOL);
      forall k | ProtocolKey(k) ensures k != APP_PATHS { ProtocolIsNotUninstall(k); }
    }
  }

  lemma ProtocolKeysAreShort(k: Key)
    ensures ProtocolKey(k) ==> |k| <= 6 == |APP_PATHS|
  {
    assert |PROTOCOL| == 3 && |ICON| == 4 && |SHELL| == 4 && |OPEN| == 5 && |COMMAND| == 6;
  }

  lemma SubkeysAsBefore(keys0: set<Key>, cells0: Cells, keys: set<Key>, cells: Cells, keys1: set<Key>, cells1: Cells)
    requires Stopped(keys0, cells0, keys, cells) && RestoredFrom(keys0, cells0, keys, cells, keys1, cells1)
    ensures HasSubkey(keys1, APP_PATHS) <==> HasSubkey(keys0, APP_PATHS)
  {
    forall q | q != [] && Parent(q) == APP_PATHS ensures q in keys1 <==> q in keys0 {
      NothingBelowAppPaths(q);
      ProtocolKeysAreShort(q);
    }
  }

  /**
   * Restoring brings back every cell a snapshot holds and every untouched one, and all keys but the ones in between.
   */
  lemma RollbackOutcome(keys0: set<Key>, cells0: Cells, keys: set<Key>, cells: Cells, keys1: set<Key>, cells1: Cells)
    requires Stopped(keys0, cells0, keys, cells) && RestoredFrom(keys0, cells0, keys, cells, keys1, cells1)
    ensures forall c :: !Escapes(c, false) ==> At(cells1, c) == At(cells0, c)
    ensures forall c :: c == INSTALL_DATE || c == ESTIMATED_SIZE ==> At(cells1, c) == At(cells, c)
    ensures keys0 <= keys1
    ensures forall k :: k in keys1 ==> k in keys0 || (RunKey(k) && !(PROTOCOL <= k))
  {
    forall k | k in keys1 && PROTOCOL <= k && k !in keys0 ensures false {
      ProtocolRunKeys(k);
    }
  }

  datatype Ending = NotStarted | Registered | RolledBack(restored: bool)

  /**
   * The registry steps of a whole run: snapshot, registration once the file is `installed`, and after any failure the
   * rollback, which works if `worksLater`. A run that is rolled back leaves every cell as it was, except for the ones
   * that escape the snapshot.
   */
  method Run(reg: Registry, p: Product, installed: bool, measured: bool, fresh0: bool, worksLater: bool)
    returns (r: Ending, ghost done: nat)
    requires reg.Valid()
    modifies reg
    ensures reg.Valid() && done <= |AllOps(p)|
    ensures r.NotStarted? ==> reg.keys == old(reg.keys) && reg.cells == old(reg.cells)
    ensures old(reg.works) ==> (r.NotStarted? <==> !AllTyped(old(reg.cells)))
    ensures old(reg.works) && !r.NotStarted? ==>
              (r.Registered? <==> installed && measured && !UnsafePath(p.appPath))
    ensures !installed ==> done == 0 && !r.Registered?
    ensures r.Registered? ==> reg.cells == Applied(old(reg.cells), AllOps(p)) && IsRegistered(reg.cells, p)
    ensures r.RolledBack? && worksLater ==>
              forall c :: !Escapes(c, DropsAppPaths(fresh0, old(reg.keys))) ==>
                At(reg.cells, c) == At(old(reg.cells), c)
    ensures r.RolledBack? && worksLater ==> forall k :: ProtocolKey(k) ==> (k in reg.keys <==> k in old(reg.keys))
    ensures r.RolledBack? && worksLater ==> forall c :: c == INSTALL_DATE || c == ESTIMATED_SIZE ==>
              At(reg.cells, c) == At(Applied(old(reg.cells), AllOps(p)[..done]), c)
    ensures r.RolledBack? && worksLater ==> (r.restored <==> !fresh0 || DropsAppPaths(fresh0, old(reg.keys)))
  {
    ghost var keys0, cells0 := reg.keys, reg.cells;
    done := 0;
    var snap := Capture(reg);
    if snap.None? { return NotStarted, 0; }
    var ok := false;
    if installed { ok, done := Register(reg, p, measured); }
    assert AllOps(p)[..|AllOps(p)|] == AllOps(p);
    if ok { return Registered, done; }
    reg.works := worksLater;
    var restored := Rollback(reg, snap.value, fresh0, keys0, cells0);
    return RolledBack(restored), done;
  }
}
