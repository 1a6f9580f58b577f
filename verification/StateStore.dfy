/**
 * The two-generation state store of internal/config/store.go, over a directory whose unsynced renames
 * and unsynced file contents may be lost in a crash.
 */
module StateStore {
  import opened Wrappers
  import opened Bytes

  const MAX_STATE_SIZE: nat := 4194304

  // ----- Files, disks and crashes -----

  datatype File = Regular(data: seq<Byte>, synced: bool) | Irregular

  /** The names the store uses in its directory: two generations of a state, and temporary files. */
  datatype Slot = Current(name: string) | Previous(name: string) | Temp(id: nat)

  type Files = map<Slot, File>

  /** What programs see, and what is known to be on the disk. */
  datatype Disk = Disk(live: Files, durable: Files)

  function Entry(files: Files, s: Slot): Option<File>
  {
    if s in files then Some(files[s]) else None
  }

  /** A directory entry after a crash: the contents of an unsynced file may be anything. */
  ghost predicate Survives(before: Option<File>, after: Option<File>)
  {
    if before.Some? && before.value.Regular? && !before.value.synced then
      after.Some? && after.value.Regular? && after.value.synced
    else after == before
  }

  /** Every name independently keeps its live or its durable entry. */
  ghost predicate CrashImage(d: Disk, m: Files)
  {
    forall s: Slot :: Survives(Entry(d.live, s), Entry(m, s)) || Survives(Entry(d.durable, s), Entry(m, s))
  }

  /** A crash that keeps one of the two maps throughout. */
  function Surviving(files: Files): Files
  {
    map s | s in files :: if files[s].Regular? then Regular(files[s].data, true) else files[s]
  }

  lemma SurvivingIsCrash(d: Disk)
    ensures CrashImage(d, Surviving(d.live)) && CrashImage(d, Surviving(d.durable))
  {
    forall s: Slot ensures Survives(Entry(d.live, s), Entry(Surviving(d.live), s)) { }
    forall s: Slot ensures Survives(Entry(d.durable, s), Entry(Surviving(d.durable), s)) { }
  }

  // ----- Encoding and reading -----

  /** `encoding/json` for one type: encoding, the validity check, decoding. */
  datatype Codec<!T> = Codec(encode: T -> seq<Byte>, valid: seq<Byte> -> bool, decode: seq<Byte> -> Option<T>)

  /** Encoded values decode, also with the newline the store appends; only valid documents decode. */
  ghost predicate Lawful<T(!new)>(c: Codec<T>)
  {
    (forall v: T :: c.valid(c.encode(v) + [10]) && c.decode(c.encode(v) + [10]) == Some(v)) &&
    forall b :: c.decode(b).Some? ==> c.valid(b)
  }

  /** What `readLimited` returns for a directory entry. */
  function Load(e: Option<File>): Option<seq<Byte>>
  {
    if e.Some? && e.value.Regular? && |e.value.data| <= MAX_STATE_SIZE then Some(e.value.data) else None
  }

  function Decoded<T>(c: Codec<T>, e: Option<File>): Option<T>
  {
    var data := Load(e);
    if data == None then None else c.decode(data.value)
  }

  /** What reading finds in two generations; nothing means the fallback. */
  function ReadEntries<T(==)>(c: Codec<T>, current: Option<File>, previous: Option<File>): Option<T>
  {
    if Decoded(c, current).Some? then Decoded(c, current) else Decoded(c, previous)
  }

  function ReadFiles<T(==)>(c: Codec<T>, files: Files, name: string): Option<T>
  {
    ReadEntries(c, Entry(files, Current(name)), Entry(files, Previous(name)))
  }

  // ----- One state seen on a disk -----

  datatype View = View(current: Option<File>, previous: Option<File>, durableCurrent: Option<File>,
                       durablePrevious: Option<File>)

  function ViewOf(d: Disk, name: string): View
  {
    View(Entry(d.live, Current(name)), Entry(d.live, Previous(name)),
         Entry(d.durable, Current(name)), Entry(d.durable, Previous(name)))
  }

  /** A pair of generations a crash can leave. */
  ghost predicate Outcome(v: View, current: Option<File>, previous: Option<File>)
  {
    (Survives(v.current, current) || Survives(v.durableCurrent, current)) &&
    (Survives(v.previous, previous) || Survives(v.durablePrevious, previous))
  }

  /** `r` is what some crash of a disk with this view makes a later read return. */
  ghost predicate Readable<T>(c: Codec<T>, v: View, r: Option<T>)
  {
    exists current, previous :: Outcome(v, current, previous) && ReadEntries(c, current, previous) == r
  }

  lemma CrashIsOutcome<T>(c: Codec<T>, d: Disk, m: Files, name: string)
    requires CrashImage(d, m)
    ensures Readable(c, ViewOf(d, name), ReadFiles(c, m, name))
  {
    assert Outcome(ViewOf(d, name), Entry(m, Current(name)), Entry(m, Previous(name)));
  }

  /** No generation has unsynced contents. */
  predicate Intact(v: View)
  {
    Stable(v.current) && Stable(v.previous) && Stable(v.durableCurrent) && Stable(v.durablePrevious)
  }

  predicate Stable(e: Option<File>)
  {
    e.Some? && e.value.Regular? ==> e.value.synced
  }

  /**
   * After any crash of a disk with view `v`, a read returns the new value or something a crash of `v0` could already
   * return.
   */
  ghost predicate Atomic<T(!new)>(c: Codec<T>, v0: View, v: View, value: T)
  {
    forall r :: Readable(c, v, r) ==> r == Some(value) || Readable(c, v0, r)
  }

  /** On a settled disk a crash changes nothing. */
  predicate Settled(v: View)
  {
    Intact(v) && v.durableCurrent == v.current && v.durablePrevious == v.previous
  }

  lemma SettledReads<T>(c: Codec<T>, v: View, r: Option<T>)
    requires Settled(v)
    ensures Readable(c, v, r) <==> r == ReadEntries(c, v.current, v.previous)
  {
    assert Outcome(v, v.current, v.previous);
  }

  // ----- The stages of a write -----

  function Generation(data: seq<Byte>): Option<File>
  {
    Some(Regular(data, true))
  }

  /** The existing generation is kept: it is valid JSON within the size limit. */
  predicate Keeps<T>(c: Codec<T>, v: View)
  {
    Load(v.current).Some? && c.valid(Load(v.current).value)
  }

  /** The existing generation would be kept although it does not decode. */
  predicate Undecodable<T>(c: Codec<T>, v: View)
  {
    Keeps(c, v) && Decoded(c, v.current).None?
  }

  /** Keeping the undecodable generation would replace one that decodes, in the directory and on the disk. */
  predicate Demotes<T>(c: Codec<T>, v: View)
  {
    Undecodable(c, v) && Decoded(c, v.previous).Some? && Decoded(c, v.durablePrevious).Some?
  }

  function AfterSync(v: View): View
  {
    View(v.current, v.previous, v.current, v.previous)
  }

  function WithPrevious(v: View, data: seq<Byte>): View
  {
    v.(previous := Generation(data))
  }

  function WithCurrent(v: View, data: seq<Byte>): View
  {
    v.(current := Generation(data))
  }

  lemma OutcomeReads<T>(c: Codec<T>, v: View, current: Option<File>, previous: Option<File>)
    requires Outcome(v, current, previous)
    ensures Readable(c, v, ReadEntries(c, current, previous))
  {
  }

  /** Renaming the copy of the current generation over the previous one. */
  lemma PreviousStage<T(!new)>(c: Codec<T>, v0: View, value: T)
    requires Intact(v0) && Keeps(c, v0) && !Demotes(c, v0)
    ensures Atomic(c, v0, WithPrevious(v0, Load(v0.current).value), value)
    ensures Atomic(c, v0, AfterSync(WithPrevious(v0, Load(v0.current).value)), value)
  {
    var v := WithPrevious(v0, Load(v0.current).value);
    forall r | Readable(c, v, r) ensures Readable(c, v0, r) {
      var current, previous :| Outcome(v, current, previous) && ReadEntries(c, current, previous) == r;
      if Decoded(c, current).Some? {
        OutcomeReads(c, v0, current, v0.previous);
      } else if previous == v0.durablePrevious {
        OutcomeReads(c, v0, current, previous);
      } else if Undecodable(c, v0) {
        OutcomeReads(c, v0, current, if Decoded(c, v0.previous).None? then v0.previous else v0.durablePrevious);
      } else {
        OutcomeReads(c, v0, v0.current, v0.previous);
      }
    }
  }

  /** Copying an undecodable generation over a decodable one lets a crash expose the fallback. */
  lemma DemotionShows<T(!new)>(c: Codec<T>, v0: View, value: T)
    requires Intact(v0) && Demotes(c, v0)
    ensures !Atomic(c, v0, AfterSync(WithPrevious(v0, Load(v0.current).value)), value)
  {
    var v := AfterSync(WithPrevious(v0, Load(v0.current).value));
    OutcomeReads(c, v, v.current, v.previous);
    assert Readable(c, v, None);
    forall current, previous | Outcome(v0, current, previous) ensures ReadEntries(c, current, previous).Some? {
    }
  }

  /** Behind the live current generation a read finds the same value, or there is none to find in front. */
  predicate Backed<T(==)>(c: Codec<T>, v: View)
  {
    Decoded(c, v.current).None? ||
    (Decoded(c, v.previous) == Decoded(c, v.current) && Decoded(c, v.durablePrevious) == Decoded(c, v.current))
  }

  /**
   * Renaming the new generation over the current one: one too long to be read back is harmless if the old value backs
   * it.
   */
  lemma CurrentStage<T(!new)>(c: Codec<T>, v0: View, v: View, value: T)
    requires Lawful(c) && Intact(v0) && Intact(v) && Atomic(c, v0, v, value)
    requires |c.encode(value)| < MAX_STATE_SIZE || Backed(c, v)
    ensures Atomic(c, v0, WithCurrent(v, c.encode(value) + [10]), value)
    ensures Atomic(c, v0, AfterSync(WithCurrent(v, c.encode(value) + [10])), value)
  {
    var data := c.encode(value) + [10];
    var w := WithCurrent(v, data);
    forall r | Readable(c, w, r) ensures r == Some(value) || Readable(c, v0, r) {
      var current, previous :| Outcome(w, current, previous) && ReadEntries(c, current, previous) == r;
      if current == v.durableCurrent {
        OutcomeReads(c, v, current, previous);
      } else {
        assert current == Generation(data);
        if |data| > MAX_STATE_SIZE {
          OutcomeReads(c, v, v.current, previous);
        }
      }
    }
    assert forall r :: Readable(c, AfterSync(w), r) ==> Readable(c, w, r);
  }

  // ----- The directory -----

  /** What the state path names. */
  datatype DirObject = Missing | Plain(id: nat) | Redirected

  /** `b` has the same generations of every state as `a`, live and durable. */
  ghost predicate SameStates(a: Disk, b: Disk)
  {
    forall s: Slot :: !s.Temp? ==> Entry(b.live, s) == Entry(a.live, s) && Entry(b.durable, s) == Entry(a.durable, s)
  }

  /** `b` is `a` after an unsynced rename of a complete file over `dst`. */
  ghost predicate Renamed(a: Disk, b: Disk, dst: Slot, data: seq<Byte>)
  {
    forall s: Slot :: !s.Temp? ==>
      Entry(b.live, s) == (if s == dst then Generation(data) else Entry(a.live, s)) &&
      Entry(b.durable, s) == Entry(a.durable, s)
  }

  /** `b` is `a` after that rename and a directory sync. */
  ghost predicate Flushed(a: Disk, b: Disk, dst: Slot, data: seq<Byte>)
  {
    forall s: Slot :: !s.Temp? ==>
      Entry(b.live, s) == (if s == dst then Generation(data) else Entry(a.live, s)) &&
      Entry(b.durable, s) == Entry(b.live, s)
  }

  /** All other states keep their live generations; a sync may have made those durable. */
  ghost predicate OthersKept(a: Disk, b: Disk, name: string)
  {
    forall s: Slot :: !s.Temp? && s.name != name ==>
      Entry(b.live, s) == Entry(a.live, s) &&
      (Entry(b.durable, s) == Entry(a.durable, s) || Entry(b.durable, s) == Entry(a.live, s))
  }

  /** The trail grew only by disks with the same states as `a`. */
  ghost predicate Idle(a: Disk, before: seq<Disk>, after: seq<Disk>)
  {
    before <= after && forall i :: |before| <= i < |after| ==> SameStates(a, after[i])
  }

  /** `b` is some stage of renaming a complete file over `dst`, starting from `a`. */
  ghost predicate Staged(a: Disk, b: Disk, dst: Slot, data: seq<Byte>)
  {
    SameStates(a, b) || Renamed(a, b, dst, data) || Flushed(a, b, dst, data)
  }

  /** The trail grew only by the stages of renaming a complete file over `dst`. */
  ghost predicate Replacing(a: Disk, dst: Slot, data: seq<Byte>, before: seq<Disk>, after: seq<Disk>)
  {
    before <= after && forall i :: |before| <= i < |after| ==> Staged(a, after[i], dst, data)
  }

  lemma IdleStep(a: Disk, before: seq<Disk>, after: seq<Disk>, d: Disk)
    requires Idle(a, before, after) && SameStates(a, d)
    ensures Idle(a, before, after + [d])
  {
  }

  lemma IdleChain(a: Disk, b: Disk, before: seq<Disk>, middle: seq<Disk>, after: seq<Disk>)
    requires Idle(a, before, middle) && SameStates(a, b) && Idle(b, middle, after)
    ensures Idle(a, before, after)
  {
    forall i | |before| <= i < |after| ensures SameStates(a, after[i]) {
      if i < |middle| { assert after[i] == middle[i]; }
    }
  }

  /** The file system below the state path. Any operation may fail unless the flags exclude it. */
  class StateDir {
    var disk: Disk
    var place: DirObject
    var nextTemp: nat
    var readsWork: bool   // no looking at the directory or its files fails
    var writesWork: bool  // no change to the directory fails
    ghost var trail: seq<Disk>  // every disk state so far: the points where a crash can strike

    ghost predicate Valid()
      reads this
    {
      (forall k: nat :: Temp(k) in disk.live ==> k < nextTemp) && trail != [] && trail[|trail| - 1] == disk
    }

    method Pass(d: Disk)
      modifies `disk, `trail
      ensures disk == d && trail == old(trail) + [d]
    {
      disk := d;
      trail := trail + [d];
    }

    predicate Reliable()
      reads this
    {
      readsWork && writesWork
    }

    /** Whether the next change fails. */
    method Fails() returns (failed: bool)
      ensures writesWork ==> !failed
    {
      failed := *;
      failed := failed && !writesWork;
    }

    /** Whether the next look fails. */
    method FailsToRead() returns (failed: bool)
      ensures readsWork ==> !failed
    {
      failed := *;
      failed := failed && !readsWork;
    }

    /** `writeSyncedTemp`: create, write, sync; whatever is left behind on failure is removed or stays as a stray. */
    method WriteSyncedTemp(data: seq<Byte>) returns (t: Option<nat>)
      requires Valid()
      modifies `disk, `nextTemp, `trail
      ensures Valid() && SameStates(old(disk), disk)
      ensures Idle(old(disk), old(trail), trail)
      ensures t.Some? ==> Entry(disk.live, Temp(t.value)) == Generation(data)
      ensures writesWork ==> t.Some?
    {
      var failed := Fails();
      if failed { return None; }
      var tmp := nextTemp;
      nextTemp := nextTemp + 1;
      ghost var d0, t0 := disk, trail;
      Pass(disk.(live := disk.live[Temp(tmp) := Regular([], false)]));
      assert Idle(d0, t0, trail) && SameStates(d0, disk);
      failed := Fails();
      if failed {
        ghost var d1, t1 := disk, trail;
        Remove(tmp);
        IdleChain(d0, d1, t0, t1, trail);
        return None;
      }
      IdleStep(d0, t0, trail, disk.(live := disk.live[Temp(tmp) := Regular(data, false)]));
      Pass(disk.(live := disk.live[Temp(tmp) := Regular(data, false)]));
      failed := Fails();
      if failed {
        ghost var d1, t1 := disk, trail;
        Remove(tmp);
        IdleChain(d0, d1, t0, t1, trail);
        return None;
      }
      IdleStep(d0, t0, trail, disk.(live := disk.live[Temp(tmp) := Regular(data, true)]));
      Pass(disk.(live := disk.live[Temp(tmp) := Regular(data, true)]));
      return Some(tmp);
    }

    /** Best-effort removal of a temporary file. */
    method Remove(tmp: nat)
      requires Valid()
      modifies `disk, `trail
      ensures Valid() && SameStates(old(disk), disk)
      ensures Idle(old(disk), old(trail), trail)
    {
      var failed := Fails();
      if failed { return; }
      Pass(disk.(live := disk.live - {Temp(tmp)}));
    }

    /** Best-effort removal of a generation. The directory is not synced, so a crash may bring it back. */
    method RemoveGeneration(s: Slot)
      requires Valid() && !s.Temp?
      modifies `disk, `trail
      ensures Valid()
      ensures (disk == old(disk) && trail == old(trail)) ||
              (disk == old(disk).(live := old(disk).live - {s}) && trail == old(trail) + [disk])
      ensures writesWork ==> Entry(disk.live, s) == None
    {
      var failed := Fails();
      if failed { return; }
      Pass(disk.(live := disk.live - {s}));
    }

    /** `replaceSyncedGeneration`: rename, then sync the directory. */
    method ReplaceSynced(tmp: nat, dst: Slot, ghost data: seq<Byte>) returns (ok: bool)
      requires Valid() && !dst.Temp? && Entry(disk.live, Temp(tmp)) == Generation(data)
      modifies `disk, `trail
      ensures Valid()
      ensures Replacing(old(disk), dst, data, old(trail), trail) && Staged(old(disk), disk, dst, data)
      ensures ok ==> Flushed(old(disk), disk, dst, data) && |old(trail)| < |trail| && trail[|trail| - 1] == disk
      ensures writesWork ==> ok
    {
      var failed := Fails();
      if failed {
        Remove(tmp);
        return false;
      }
      Pass(disk.(live := disk.live[dst := disk.live[Temp(tmp)]] - {Temp(tmp)}));
      failed := Fails();
      if failed { return false; }
      Pass(disk.(durable := disk.live));
      return true;
    }
  }

  // ----- The store -----

  /** `validateStateName`: a plain file name of at most 128 bytes. */
  predicate ValidStateName(name: string)
  {
    name != "" && '/' !in name && '\\' !in name && name != "." && name != ".." && |name| <= 128
  }

  predicate Separator(ch: char)
  {
    ch == '/' || ch == '\\'
  }

  /** The parts of a path, between its separators. */
  function Parts(path: string): (r: seq<string>)
    ensures r != [] && forall i, ch :: 0 <= i < |r| && ch in r[i] ==> !Separator(ch)
  {
    if path == "" then [""]
    else
      var rest := Parts(path[1..]);
      if Separator(path[0]) then [""] + rest else [[path[0]] + rest[0]] + rest[1..]
  }

  /** Where a path leads from a directory. */
  function Resolved(dir: seq<string>, parts: seq<string>): seq<string>
    decreases |parts|
  {
    if parts == [] then dir
    else if parts[0] == "" || parts[0] == "." then Resolved(dir, parts[1..])
    else if parts[0] == ".." then Resolved(if dir == [] then dir else dir[..|dir| - 1], parts[1..])
    else Resolved(dir + [parts[0]], parts[1..])
  }

  lemma {:induction false} OnePart(name: string)
    requires forall ch :: ch in name ==> !Separator(ch)
    ensures Parts(name) == [name]
  {
    if name != "" {
      OnePart(name[1..]);
      assert name == [name[0]] + name[1..];
    }
  }

  /** Whatever a path adds to a directory has no separator. */
  lemma {:induction false} ResolvedAdds(dir: seq<string>, parts: seq<string>, n: nat)
    requires forall i, ch :: 0 <= i < |parts| && ch in parts[i] ==> !Separator(ch)
    requires forall i, ch :: n <= i < |dir| && ch in dir[i] ==> !Separator(ch)
    ensures forall i, ch :: n <= i < |Resolved(dir, parts)| && ch in Resolved(dir, parts)[i] ==> !Separator(ch)
    decreases |parts|
  {
    if parts != [] {
      var rest := parts[1..];
      if parts[0] == "" || parts[0] == "." {
        ResolvedAdds(dir, rest, n);
      } else if parts[0] == ".." {
        ResolvedAdds(if dir == [] then dir else dir[..|dir| - 1], rest, n);
      } else {
        ResolvedAdds(dir + [parts[0]], rest, n);
      }
    }
  }

  /** A name is accepted exactly when it leads, from any directory, to the entry of that name in it. */
  lemma StateNameStaysInside(dir: seq<string>, name: string)
    ensures ValidStateName(name) <==> |name| <= 128 && Resolved(dir, Parts(name)) == dir + [name]
  {
    if forall ch :: ch in name ==> !Separator(ch) {
      OnePart(name);
      assert [name][1..] == [];
      if name == ".." { assert |Resolved(dir, [name])| <= |dir|; }
    } else {
      ResolvedAdds(dir, Parts(name), |dir|);
      assert (dir + [name])[|dir|] == name;
    }
  }

  /** When every crash point of a write is promised to be harmless. */
  ghost predicate Harmless<T(!new)>(c: Codec<T>, v0: View, value: T, reliable: bool)
  {
    Lawful(c) && Intact(v0) && !Demotes(c, v0) && (reliable || |c.encode(value)| < MAX_STATE_SIZE)
  }

  ghost predicate AtomicTrail<T(!new)>(c: Codec<T>, v0: View, value: T, name: string, before: seq<Disk>,
                                       after: seq<Disk>)
  {
    before <= after && forall i :: |before| <= i < |after| ==> Atomic(c, v0, ViewOf(after[i], name), value)
  }

  ghost predicate OthersTrail(a: Disk, name: string, before: seq<Disk>, after: seq<Disk>)
  {
    before <= after && forall i :: |before| <= i < |after| ==> OthersKept(a, after[i], name)
  }

  lemma SameView(a: Disk, b: Disk, name: string)
    requires SameStates(a, b)
    ensures ViewOf(b, name) == ViewOf(a, name) && OthersKept(a, b, name)
  {
  }

  lemma StageView(a: Disk, b: Disk, dst: Slot, data: seq<Byte>)
    requires !dst.Temp?
    ensures var v := if dst.Current? then WithCurrent(ViewOf(a, dst.name), data)
            else WithPrevious(ViewOf(a, dst.name), data);
            (Renamed(a, b, dst, data) ==> ViewOf(b, dst.name) == v) &&
            (Flushed(a, b, dst, data) ==> ViewOf(b, dst.name) == AfterSync(v)) &&
            (Renamed(a, b, dst, data) || Flushed(a, b, dst, data) ==> OthersKept(a, b, dst.name))
  {
  }

  lemma StagedKeepsOthers(a: Disk, b: Disk, dst: Slot, data: seq<Byte>)
    requires !dst.Temp? && Staged(a, b, dst, data)
    ensures OthersKept(a, b, dst.name)
  {
  }

  /** `copy` is a synced copy of the generation `e`. */
  predicate IsCopy(e: Option<File>, copy: Option<File>)
  {
    e.Some? && e.value.Regular? && copy == Generation(e.value.data)
  }

  /**
   * Every generation is, whole, one that was there before, or the complete new one, or a copy of the old current one.
   */
  predicate Pieces<T>(c: Codec<T>, v0: View, v: View, value: T)
  {
    var written := Generation(c.encode(value) + [10]);
    (v.current == v0.current || v.current == written) &&
    (v.durableCurrent == v0.durableCurrent || v.durableCurrent == v0.current || v.durableCurrent == written) &&
    (v.previous == v0.previous || IsCopy(v0.current, v.previous)) &&
    (v.durablePrevious == v0.durablePrevious || v.durablePrevious == v0.previous ||
     IsCopy(v0.current, v.durablePrevious))
  }

  /** What every point of a write must satisfy. */
  ghost predicate Fine<T(!new)>(c: Codec<T>, v0: View, v: View, value: T, harmless: bool)
  {
    Pieces(c, v0, v, value) && (harmless ==> Atomic(c, v0, v, value))
  }

  /** A stage of a write is safe: every point of its trail is fine and touches no other state. */
  ghost predicate SafeTrail<T(!new)>(c: Codec<T>, v0: View, value: T, name: string, a: Disk, before: seq<Disk>,
                                     after: seq<Disk>,
                                     harmless: bool)
  {
    OthersTrail(a, name, before, after) &&
    forall i :: |before| <= i < |after| ==> Fine(c, v0, ViewOf(after[i], name), value, harmless)
  }

  /** All three views that replacing `dst` goes through are fine. */
  ghost predicate ReadyFor<T(!new)>(c: Codec<T>, v0: View, a: View, dst: Slot, data: seq<Byte>, value: T,
                                    harmless: bool)
  {
    var v := if dst.Current? then WithCurrent(a, data) else WithPrevious(a, data);
    Fine(c, v0, a, value, harmless) && Fine(c, v0, v, value, harmless) && Fine(c, v0, AfterSync(v), value, harmless)
  }

  lemma IdleIsSafe<T(!new)>(c: Codec<T>, v0: View, value: T, name: string, a: Disk, before: seq<Disk>, after: seq<Disk>,
                            harmless: bool)
    requires Idle(a, before, after) && Fine(c, v0, ViewOf(a, name), value, harmless)
    ensures SafeTrail(c, v0, value, name, a, before, after, harmless)
  {
    forall i | |before| <= i < |after|
      ensures OthersKept(a, after[i], name)
      ensures Fine(c, v0, ViewOf(after[i], name), value, harmless)
    {
      SameView(a, after[i], name);
    }
  }

  lemma ReplacingIsSafe<T(!new)>(c: Codec<T>, v0: View, value: T, dst: Slot, data: seq<Byte>, a: Disk,
                                 before: seq<Disk>, after: seq<Disk>, harmless: bool)
    requires !dst.Temp? && Replacing(a, dst, data, before, after)
    requires ReadyFor(c, v0, ViewOf(a, dst.name), dst, data, value, harmless)
    ensures SafeTrail(c, v0, value, dst.name, a, before, after, harmless)
  {
    forall i | |before| <= i < |after|
      ensures OthersKept(a, after[i], dst.name)
      ensures Fine(c, v0, ViewOf(after[i], dst.name), value, harmless)
    {
      if SameStates(a, after[i]) {
        SameView(a, after[i], dst.name);
      } else {
        StageView(a, after[i], dst, data);
      }
    }
  }

  lemma SafeChain<T(!new)>(c: Codec<T>, v0: View, value: T, name: string, a: Disk, b: Disk,
                           before: seq<Disk>, middle: seq<Disk>, after: seq<Disk>, harmless: bool)
    requires SafeTrail(c, v0, value, name, a, before, middle, harmless) && OthersKept(a, b, name)
    requires SafeTrail(c, v0, value, name, b, middle, after, harmless)
    ensures SafeTrail(c, v0, value, name, a, before, after, harmless)
  {
    forall i | |before| <= i < |after|
      ensures OthersKept(a, after[i], name)
      ensures Fine(c, v0, ViewOf(after[i], name), value, harmless)
    {
      if i < |middle| {
        assert after[i] == middle[i];
      } else {
        OthersChain(a, b, after[i], name);
      }
    }
  }

  lemma OthersChain(a: Disk, b: Disk, d: Disk, name: string)
    requires OthersKept(a, b, name) && OthersKept(b, d, name)
    ensures OthersKept(a, d, name)
  {
  }

  lemma StartIsAtomic<T(!new)>(c: Codec<T>, v: View, value: T)
    ensures Atomic(c, v, v, value)
  {
  }

  class Store {
    const dir: StateDir
    var dirIdentity: Option<nat>

    /** `New`: binds the directory if it is there. */
    constructor (dir: StateDir)
      ensures this.dir == dir
      ensures dirIdentity == if dir.place.Plain? then Some(dir.place.id) else None
    {
      this.dir := dir;
      dirIdentity := if dir.place.Plain? then Some(dir.place.id) else None;
    }

    ghost predicate Valid()
      reads dir
    {
      dir.Valid()
    }

    /** The path names the bound directory, or nothing is bound yet and it can be. */
    predicate Bound()
      reads this, dir
    {
      match dir.place
      case Missing => dirIdentity.None?
      case Plain(id) => dirIdentity.None? || dirIdentity == Some(id)
      case Redirected => false
    }

    /** What an operation may do to the binding: make a missing directory and bind it once. */
    twostate predicate BindingKept()
      reads this, dir
    {
      (dirIdentity == old(dirIdentity) || old(dirIdentity).None?) &&
      (dir.place == old(dir.place) || (old(dir.place).Missing? && old(dirIdentity).None?)) &&
      (old(Bound()) ==> Bound()) && (!old(Bound()) ==> dirIdentity == old(dirIdentity) && dir.place == old(dir.place))
    }

    method EnsureDirectoryIdentity() returns (ok: bool)
      modifies this`dirIdentity, dir`place
      ensures BindingKept()
      ensures ok ==> old(Bound()) && dir.place.Plain?
      ensures dir.readsWork && (dir.writesWork || old(dir.place).Plain?) && old(Bound()) ==> ok
    {
      var failed := dir.FailsToRead();
      if failed || dir.place.Redirected? { return false; }
      if dir.place.Missing? {
        if dirIdentity.Some? { return false; }
        failed := dir.Fails();
        if failed { return false; }
        var id: nat := *;
        dir.place := Plain(id);
      }
      if dirIdentity.None? {
        dirIdentity := Some(dir.place.id);
        return true;
      }
      return dirIdentity == Some(dir.place.id);
    }

    method ReadBoundState(s: Slot) returns (data: Option<seq<Byte>>)
      modifies this`dirIdentity, dir`place
      ensures BindingKept()
      ensures data.Some? ==> old(Bound()) && Load(Entry(dir.disk.live, s)) == data
      ensures dir.readsWork && (dir.writesWork || old(dir.place).Plain?) && old(Bound()) ==>
                data == Load(Entry(dir.disk.live, s))
    {
      var ok := EnsureDirectoryIdentity();
      if !ok { return None; }
      var failed := dir.FailsToRead();
      if failed { return None; }
      data := Load(Entry(dir.disk.live, s));
      ok := EnsureDirectoryIdentity();
      if !ok { return None; }
    }

    method WriteBoundTemp(data: seq<Byte>) returns (t: Option<nat>)
      requires Valid()
      modifies this`dirIdentity, dir`place, dir`disk, dir`nextTemp, dir`trail
      ensures Valid() && BindingKept() && SameStates(old(dir.disk), dir.disk)
      ensures Idle(old(dir.disk), old(dir.trail), dir.trail)
      ensures t.Some? ==> Entry(dir.disk.live, Temp(t.value)) == Generation(data)
      ensures dir.Reliable() && old(Bound()) ==> t.Some?
      ensures !old(Bound()) ==> t.None? && dir.disk == old(dir.disk) && dir.trail == old(dir.trail)
    {
      var ok := EnsureDirectoryIdentity();
      if !ok { return None; }
      t := dir.WriteSyncedTemp(data);
      if t.None? { return None; }
      ok := EnsureDirectoryIdentity();
      if !ok {
        ghost var d1, t1 := dir.disk, dir.trail;
        dir.Remove(t.value);
        IdleChain(old(dir.disk), d1, old(dir.trail), t1, dir.trail);
        return None;
      }
    }

    method ReplaceBoundGeneration(tmp: nat, dst: Slot, ghost data: seq<Byte>) returns (ok: bool)
      requires Valid() && !dst.Temp? && Entry(dir.disk.live, Temp(tmp)) == Generation(data)
      modifies this`dirIdentity, dir`place, dir`disk, dir`trail
      ensures Valid() && BindingKept()
      ensures Replacing(old(dir.disk), dst, data, old(dir.trail), dir.trail)
      ensures Staged(old(dir.disk), dir.disk, dst, data)
      ensures ok ==> Flushed(old(dir.disk), dir.disk, dst, data)
      ensures ok ==> |old(dir.trail)| < |dir.trail| && dir.trail[|dir.trail| - 1] == dir.disk
      ensures dir.Reliable() && old(Bound()) ==> ok
    {
      ok := EnsureDirectoryIdentity();
      if !ok {
        dir.Remove(tmp);
        return false;
      }
      ok := dir.ReplaceSynced(tmp, dst, data);
      if !ok { return false; }
      ok := EnsureDirectoryIdentity();
    }

    /** Writes a synced copy of `data` and renames it over `dst`: the part both generations of a write share. */
    method WriteGeneration<T(!new)>(dst: Slot, data: seq<Byte>, ghost c: Codec<T>, ghost v0: View, ghost value: T,
                                    ghost harmless: bool)
      returns (ok: bool)
      requires Valid() && !dst.Temp?
      requires ReadyFor(c, v0, ViewOf(dir.disk, dst.name), dst, data, value, harmless)
      modifies this`dirIdentity, dir`place, dir`disk, dir`nextTemp, dir`trail
      ensures Valid() && BindingKept()
      ensures SafeTrail(c, v0, value, dst.name, old(dir.disk), old(dir.trail), dir.trail, harmless)
      ensures OthersKept(old(dir.disk), dir.disk, dst.name)
      ensures ok ==> var a := ViewOf(old(dir.disk), dst.name);
                     ViewOf(dir.disk, dst.name) ==
                     AfterSync(if dst.Current? then WithCurrent(a, data) else WithPrevious(a, data))
      ensures ok ==> |old(dir.trail)| < |dir.trail| && dir.trail[|dir.trail| - 1] == dir.disk
      ensures dir.Reliable() && old(Bound()) ==> ok
      ensures !old(Bound()) ==> !ok && dir.disk == old(dir.disk) && dir.trail == old(dir.trail)
    {
      var tmp := WriteBoundTemp(data);
      ghost var d1, t1 := dir.disk, dir.trail;
      SameView(old(dir.disk), d1, dst.name);
      IdleIsSafe(c, v0, value, dst.name, old(dir.disk), old(dir.trail), t1, harmless);
      if tmp.None? { return false; }
      ok := ReplaceBoundGeneration(tmp.value, dst, data);
      StagedKeepsOthers(d1, dir.disk, dst, data);
      OthersChain(old(dir.disk), d1, dir.disk, dst.name);
      StageView(d1, dir.disk, dst, data);
      ReplacingIsSafe(c, v0, value, dst, data, d1, t1, dir.trail, harmless);
      SafeChain(c, v0, value, dst.name, old(dir.disk), d1, old(dir.trail), t1, dir.trail, harmless);
    }

    /** `Store.Read`. */
    method Read<T>(c: Codec<T>, name: string, fallback: T) returns (r: Result<(T, Origin), string>)
      modifies this`dirIdentity, dir`place
      ensures BindingKept()
      ensures !ValidStateName(name) || !old(Bound()) ==> r.Err?
      ensures r.Ok? ==> Found(c, ViewOf(dir.disk, name), fallback, r.value.0, r.value.1)
      ensures dir.readsWork && r.Ok? ==> r.value == BestReading(c, dir.disk.live, name, fallback)
      ensures dir.Reliable() && ValidStateName(name) && old(Bound()) ==> r.Ok?
    {
      if !ValidStateName(name) { return Err("state name"); }
      var ok := EnsureDirectoryIdentity();
      if !ok { return Err("state directory"); }
      var data := ReadBoundState(Current(name));
      if data.Some? {
        var v := c.decode(data.value);
        if v.Some? { return Ok((v.value, FromCurrent)); }
      }
      data := ReadBoundState(Previous(name));
      if data.Some? {
        var v := c.decode(data.value);
        if v.Some? { return Ok((v.value, FromPrevious)); }
      }
      ok := EnsureDirectoryIdentity();
      if !ok { return Err("state directory"); }
      return Ok((fallback, FromFallback));
    }

    /** The first half of a write: the existing generation, if it is valid JSON, becomes the previous one. */
    method KeepExisting<T(!new)>(c: Codec<T>, name: string, ghost value: T) returns (ok: bool)
      requires Valid()
      modifies this`dirIdentity, dir`place, dir`disk, dir`nextTemp, dir`trail
      ensures Valid() && BindingKept()
      ensures !old(Bound()) ==> dir.disk == old(dir.disk) && dir.trail == old(dir.trail)
      ensures dir.Reliable() && old(Bound()) ==> ok
      ensures OthersKept(old(dir.disk), dir.disk, name)
      ensures var v0 := ViewOf(old(dir.disk), name);
              SafeTrail(c, v0, value, name, old(dir.disk), old(dir.trail), dir.trail,
                        Harmless(c, v0, value, dir.Reliable()))
      ensures ok ==> MaybeKept(c, ViewOf(old(dir.disk), name), ViewOf(dir.disk, name), dir.Reliable() && old(Bound()))
      ensures ok && dir.Reliable() && old(Bound()) ==>
                Shown(c, ViewOf(old(dir.disk), name), value, name, old(dir.trail), dir.trail)
    {
      ghost var v0 := ViewOf(dir.disk, name);
      ghost var harmless := Harmless(c, v0, value, dir.Reliable());
      var existing := ReadBoundState(Current(name));
      if existing.None? || !c.valid(existing.value) { return true; }
      StartIsAtomic(c, v0, value);
      if harmless { PreviousStage(c, v0, value); }
      ok := WriteGeneration(Previous(name), existing.value, c, v0, value, harmless);
      if Demotes(c, v0) && Intact(v0) { DemotionShows(c, v0, value); }
    }

    /** `Store.Write`. */
    method Write<T(!new)>(c: Codec<T>, name: string, value: T) returns (ok: bool)
      requires Valid()
      modifies this`dirIdentity, dir`place, dir`disk, dir`nextTemp, dir`trail
      ensures Valid() && BindingKept()
      ensures !Accepted(c, name, value) || !old(Bound()) ==>
                !ok && dir.disk == old(dir.disk) && dir.trail == old(dir.trail)
      ensures dir.Reliable() ==> ok == (ValidStateName(name) && |c.encode(value)| <= 4194304 && old(Bound()))
      ensures WriteOutcome(c, name, value, old(dir.disk), old(dir.trail), dir.disk, dir.trail, ok, dir.Reliable())
    {
      NothingWritten(c, name, value, dir.disk, dir.trail, dir.Reliable());
      if !ValidStateName(name) { return false; }
      ok := EnsureDirectoryIdentity();
      if !ok { return false; }
      var data := c.encode(value);
      if |data| > MAX_STATE_SIZE { return false; }
      ok := WriteBoth(c, name, value, data + [10]);
    }

    /** The two generations of a write. */
    method WriteBoth<T(!new)>(c: Codec<T>, name: string, value: T, data: seq<Byte>) returns (ok: bool)
      requires Valid() && Bound() && Accepted(c, name, value) && data == c.encode(value) + [10]
      modifies this`dirIdentity, dir`place, dir`disk, dir`nextTemp, dir`trail
      ensures Valid() && BindingKept()
      ensures dir.Reliable() ==> ok
      ensures WriteOutcome(c, name, value, old(dir.disk), old(dir.trail), dir.disk, dir.trail, ok, dir.Reliable())
    {
      ghost var d0, t0, v0 := dir.disk, dir.trail, ViewOf(dir.disk, name);
      ghost var harmless := Harmless(c, v0, value, dir.Reliable());
      ok := KeepExisting(c, name, value);
      if !ok { return false; }
      ghost var d1, t1, v1 := dir.disk, dir.trail, ViewOf(dir.disk, name);
      KeptIsReady(c, name, v0, v1, data, value, dir.Reliable());
      ok := WriteGeneration(Current(name), data, c, v0, value, harmless);
      SafeChain(c, v0, value, name, d0, d1, t0, t1, dir.trail, harmless);
      OthersChain(d0, d1, dir.disk, name);
      if dir.Reliable() { ShownStays(c, v0, value, name, t0, t1, dir.trail); }
    }
  }

  /**
   * What a write promises: every point of its trail is safe and touches no other state, and afterwards the directory
   * holds the new generation in front of the old or the older one; when nothing fails, exactly which, and atomically
   * exactly unless a generation is demoted.
   */
  ghost predicate WriteOutcome<T(!new)>(c: Codec<T>, name: string, value: T, d0: Disk, before: seq<Disk>,
                                        d: Disk, after: seq<Disk>, ok: bool, reliable: bool)
  {
    var v0, v := ViewOf(d0, name), ViewOf(d, name);
    OthersKept(d0, d, name) &&
    SafeTrail(c, v0, value, name, d0, before, after, Harmless(c, v0, value, reliable)) &&
    (ok ==> v == Written(c, v0, value, false) || (Keeps(c, v0) && v == Written(c, v0, value, true))) &&
    (ok && reliable ==> v == AfterWrite(c, v0, value)) &&
    (ok && reliable && Lawful(c) && Intact(v0) ==>
       (AtomicTrail(c, v0, value, name, before, after) <==> !Demotes(c, v0)))
  }

  lemma NothingWritten<T(!new)>(c: Codec<T>, name: string, value: T, d: Disk, trail: seq<Disk>, reliable: bool)
    ensures WriteOutcome(c, name, value, d, trail, d, trail, false, reliable)
  {
  }

  /** The view after the first half of a write; `sure` when no operation can fail. */
  predicate MaybeKept<T(==)>(c: Codec<T>, v0: View, v1: View, sure: bool)
  {
    if Keeps(c, v0) then v1 == AfterSync(WithPrevious(v0, Load(v0.current).value)) || (!sure && v1 == v0) else v1 == v0
  }

  /** A demotion shows in the trail. */
  ghost predicate Shown<T(!new)>(c: Codec<T>, v0: View, value: T, name: string, before: seq<Disk>, after: seq<Disk>)
  {
    Intact(v0) && Demotes(c, v0) ==> !AtomicTrail(c, v0, value, name, before, after)
  }

  lemma ShownStays<T(!new)>(c: Codec<T>, v0: View, value: T, name: string, before: seq<Disk>, middle: seq<Disk>,
                            after: seq<Disk>)
    requires before <= middle <= after && Shown(c, v0, value, name, before, middle)
    ensures Shown(c, v0, value, name, before, after)
  {
    if AtomicTrail(c, v0, value, name, before, after) {
      forall i | |before| <= i < |middle| ensures Atomic(c, v0, ViewOf(middle[i], name), value) {
        assert middle[i] == after[i];
      }
    }
  }

  /** After the first half every view of the second half is fine. */
  lemma KeptIsReady<T(!new)>(c: Codec<T>, name: string, v0: View, v1: View, data: seq<Byte>, value: T, reliable: bool)
    requires MaybeKept(c, v0, v1, reliable) && data == c.encode(value) + [10]
    ensures ReadyFor(c, v0, v1, Current(name), data, value, Harmless(c, v0, value, reliable))
  {
    assert Pieces(c, v0, v1, value);
    if Harmless(c, v0, value, reliable) { KeptIsAtomic(c, v0, v1, value, reliable); }
  }

  lemma KeptIsAtomic<T(!new)>(c: Codec<T>, v0: View, v1: View, value: T, reliable: bool)
    requires Harmless(c, v0, value, reliable) && MaybeKept(c, v0, v1, reliable)
    ensures var w := WithCurrent(v1, c.encode(value) + [10]);
            Atomic(c, v0, v1, value) && Atomic(c, v0, w, value) && Atomic(c, v0, AfterSync(w), value)
  {
    StartIsAtomic(c, v0, value);
    if Keeps(c, v0) { PreviousStage(c, v0, value); }
    CurrentStage(c, v0, v1, value);
  }

  // ----- What a write leaves -----

  datatype Origin = FromCurrent | FromPrevious | FromFallback

  function BestReading<T(==)>(c: Codec<T>, files: Files, name: string, fallback: T): (T, Origin)
  {
    if Decoded(c, Entry(files, Current(name))).Some? then (Decoded(c, Entry(files, Current(name))).value, FromCurrent)
    else if Decoded(c, Entry(files, Previous(name))).Some? then
      (Decoded(c, Entry(files, Previous(name))).value, FromPrevious)
    else (fallback, FromFallback)
  }

  /** A reading is one complete generation or the fallback, never a mixture. */
  predicate Found<T(==)>(c: Codec<T>, v: View, fallback: T, value: T, origin: Origin)
  {
    match origin
    case FromCurrent => Decoded(c, v.current) == Some(value)
    case FromPrevious => Decoded(c, v.previous) == Some(value)
    case FromFallback => value == fallback
  }

  /** The size check comes before the newline is appended. */
  predicate Accepted<T>(c: Codec<T>, name: string, value: T)
  {
    ValidStateName(name) && |c.encode(value)| <= MAX_STATE_SIZE
  }

  function Written<T>(c: Codec<T>, v: View, value: T, kept: bool): View
    requires kept ==> Keeps(c, v)
  {
    var current := Generation(c.encode(value) + [10]);
    var previous := if kept then Generation(Load(v.current).value) else v.previous;
    View(current, previous, current, previous)
  }

  function AfterWrite<T>(c: Codec<T>, v: View, value: T): View
  {
    Written(c, v, value, Keeps(c, v))
  }

  // ----- Main results -----

  /** Two generations a crash can leave are what some crash of the whole disk leaves. */
  lemma OutcomeIsCrash(d: Disk, name: string, current: Option<File>, previous: Option<File>) returns (m: Files)
    requires Outcome(ViewOf(d, name), current, previous)
    ensures CrashImage(d, m) && Entry(m, Current(name)) == current && Entry(m, Previous(name)) == previous
  {
    SurvivingIsCrash(d);
    m := Surviving(d.live) - {Current(name), Previous(name)};
    if current.Some? { m := m[Current(name) := current.value]; }
    if previous.Some? { m := m[Previous(name) := previous.value]; }
    forall s: Slot ensures Survives(Entry(d.live, s), Entry(m, s)) || Survives(Entry(d.durable, s), Entry(m, s)) {
      assert s != Current(name) && s != Previous(name) ==> Entry(m, s) == Entry(Surviving(d.live), s);
    }
  }

  /**
   * Whatever survives a crash during a write that no stage exposes, a read returns the complete new value or what it
   * could also have returned after a crash just before the write; if everything was synced by then, that is the old
   * reading.
   */
  lemma CrashDuringWrite<T(!new)>(c: Codec<T>, d: Disk, value: T, name: string,
                                  before: seq<Disk>, after: seq<Disk>, i: nat, m: Files)
    requires AtomicTrail(c, ViewOf(d, name), value, name, before, after)
    requires |before| <= i < |after| && CrashImage(after[i], m)
    ensures ReadFiles(c, m, name) == Some(value) ||
            exists m0 :: CrashImage(d, m0) && ReadFiles(c, m0, name) == ReadFiles(c, m, name)
    ensures Settled(ViewOf(d, name)) ==>
              ReadFiles(c, m, name) == Some(value) || ReadFiles(c, m, name) == ReadFiles(c, d.live, name)
  {
    CrashIsOutcome(c, after[i], m, name);
    var v, r := ViewOf(d, name), ReadFiles(c, m, name);
    if r != Some(value) {
      var current, previous :| Outcome(v, current, previous) && ReadEntries(c, current, previous) == r;
      var m0 := OutcomeIsCrash(d, name, current, previous);
      assert ReadFiles(c, m0, name) == r;
      if Settled(v) { SettledReads(c, v, r); }
    }
  }

  /**
   * A write is read back exactly when its encoding is strictly below the limit, or the generation behind it happens to
   * agree.
   */
  lemma ReadYourWrite<T(!new)>(c: Codec<T>, v: View, value: T, kept: bool)
    requires Lawful(c) && |c.encode(value)| <= MAX_STATE_SIZE && (kept ==> Keeps(c, v))
    ensures var w := Written(c, v, value, kept);
            ReadEntries(c, w.current, w.previous) == Some(value) <==>
            |c.encode(value)| < MAX_STATE_SIZE || Decoded(c, w.previous) == Some(value)
  {
  }

  /**
   * At the size limit itself, activating a generation is atomic exactly when the previous generation reads like the old
   * value or the new.
   */
  lemma ActivationAtLimit<T(!new)>(c: Codec<T>, v: View, value: T)
    requires Lawful(c) && Settled(v) && |c.encode(value)| == MAX_STATE_SIZE
    ensures Atomic(c, v, AfterSync(WithCurrent(v, c.encode(value) + [10])), value) <==>
            Backed(c, v) || Decoded(c, v.previous) == Some(value)
  {
    var w := AfterSync(WithCurrent(v, c.encode(value) + [10]));
    var back := Decoded(c, v.previous);
    SettledReads(c, w, back);
    SettledReads(c, v, back);
    forall r | Readable(c, w, r) ensures r == back {
      SettledReads(c, w, r);
    }
  }

  function AfterWrites<T>(c: Codec<T>, v: View, values: seq<T>): View
  {
    if values == [] then v else AfterWrite(c, AfterWrites(c, v, values[..|values| - 1]), values[|values| - 1])
  }

  /** After a run of writes below the limit, current is the last value and previous the one before it. */
  lemma LastTwoGenerations<T(!new)>(c: Codec<T>, v: View, values: seq<T>)
    requires Lawful(c) && 2 <= |values| && forall i :: 0 <= i < |values| ==> |c.encode(values[i])| < MAX_STATE_SIZE
    ensures var w := AfterWrites(c, v, values);
            Settled(w) && Decoded(c, w.current) == Some(values[|values| - 1]) &&
            Decoded(c, w.previous) == Some(values[|values| - 2])
  {
    var n := |values|;
    var before := values[..n - 1];
    assert before[|before| - 1] == values[n - 2];
    assert AfterWrites(c, v, values) == AfterWrite(c, AfterWrites(c, v, before), values[n - 1]);
    assert AfterWrites(c, v, before) == AfterWrite(c, AfterWrites(c, v, before[..n - 2]), values[n - 2]);
    assert |c.encode(values[n - 2])| < MAX_STATE_SIZE && |c.encode(values[n - 1])| < MAX_STATE_SIZE;
  }

  /** A codec whose documents are all but the empty one, although only those with a trailing newline decode. */
  function TrailerCodec(): Codec<seq<Byte>>
  {
    Codec((v: seq<Byte>) => v, (b: seq<Byte>) => b != [],
          (b: seq<Byte>) => if b != [] && b[|b| - 1] == 10 then Some(b[..|b| - 1]) else None)
  }

  lemma TrailerCodecIsLawful()
    ensures Lawful(TrailerCodec())
  {
    var c := TrailerCodec();
    forall b: seq<Byte> ensures c.valid(b + [10]) && c.decode(b + [10]) == Some(b) {
      assert (b + [10])[..|b|] == b;
    }
  }

  /** A settled directory whose current generation is valid but does not decode, in front of one that does. */
  function DemotingView(): View
  {
    View(Generation([7]), Generation([9, 10]), Generation([7]), Generation([9, 10]))
  }

  lemma DemotingViewReads()
    ensures Load(Generation([7])) == Some([7]) && Decoded(TrailerCodec(), Generation([7])) == None
    ensures Load(Generation([9, 10])) == Some([9, 10]) && Decoded(TrailerCodec(), Generation([9, 10])) == Some([9])
  {
    assert [9, 10][..1] == [9];
  }

  /**
   * The exception is real: a write on this directory lets a crash expose the fallback in place of a readable
   * generation.
   */
  lemma DemotionHappens()
    ensures var v := DemotingView();
            Lawful(TrailerCodec()) && !TrailerCodec().valid([]) && Settled(v) && Demotes(TrailerCodec(), v) &&
            ReadEntries(TrailerCodec(), v.current, v.previous) == Some([9]) &&
            Readable(TrailerCodec(), AfterSync(WithPrevious(v, [7])), None)
  {
    TrailerCodecIsLawful();
    DemotingViewReads();
    var w := AfterSync(WithPrevious(DemotingView(), [7]));
    OutcomeReads(TrailerCodec(), w, w.current, w.previous);
  }
}
