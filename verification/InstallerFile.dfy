/**
 * The file half of the installer transaction (cmd/installer/transaction.go; `installFile` and the file steps of
 * `runInstaller` in cmd/installer/main.go): back up, stage, swap, record, and roll back.
 */
module InstallerFile {
  import opened Wrappers

  type Content = seq<char>

  /** A file system object: its identity, modification stamp and content. */
  datatype FileObject = FileObject(id: nat, stamp: nat, content: Content, regular: bool)

  /** Names in the installation directory. */
  datatype Name = Target | Temp(number: nat) | Other(name: string)

  type Files = map<Name, FileObject>

  /** What `os.FileInfo` says about a regular file, with its digest; digests are as good as contents. */
  datatype Seen = Seen(id: nat, stamp: nat, size: nat, digest: Content)

  function See(f: FileObject): Seen
  {
    Seen(f.id, f.stamp, |f.content|, f.content)
  }

  /** `sameStableInstallerFile` */
  predicate SameStable(a: Seen, b: Seen)
  {
    a.id == b.id && a.stamp == b.stamp && a.size == b.size
  }

  /** Everything but the target is as it was. */
  predicate SameApartFromTarget(a: Files, b: Files)
  {
    (forall n :: n in a && n != Target ==> n in b && b[n] == a[n]) && forall n :: n in b && n != Target ==> n in a
  }

  /** Nothing that was there, apart from the target, changed. */
  predicate KeepsOthers(a: Files, b: Files)
  {
    forall n :: n in a && n != Target ==> n in b && b[n] == a[n]
  }

  /** The target is as it was, byte for byte, or absent as it was. */
  predicate SameTarget(a: Files, b: Files)
  {
    (Target in b <==> Target in a) && (Target in a ==> b[Target].content == a[Target].content)
  }

  /** The installation directory. What the flags do not exclude may fail at any time. */
  class Machine {
    var files: Files
    var nextId: nat
    var nextTemp: nat
    var calm: bool         // reading, writing, creating and renaming work
    var steady: bool       // the directory is the pinned one, and checking that works
    var removesWork: bool  // removing a file works

    ghost predicate Valid()
      reads this
    {
      (forall n :: n in files ==> files[n].id < nextId) && forall k: nat :: Temp(k) in files ==> k < nextTemp
    }

    method Fails() returns (failed: bool)
      ensures calm ==> !failed
    {
      failed := *;
      failed := failed && !calm;
    }

    /** `installDirectoryGuard.verify` */
    method VerifyDirectory() returns (ok: bool)
      ensures steady ==> ok
    {
      ok := *;
      ok := ok || steady;
    }

    /** `os.CreateTemp`: a new object under an unpredictable name. */
    method CreateTemp() returns (t: Option<Name>)
      requires Valid()
      modifies `files, `nextId, `nextTemp
      ensures Valid()
      ensures t.None? ==> files == old(files)
      ensures t.Some? ==> t.value.Temp? && t.value !in old(files) &&
                          files == old(files)[t.value := FileObject(old(nextId), 0, [], true)]
      ensures calm ==> t.Some?
    {
      var failed := Fails();
      if failed { return None; }
      var name := Temp(nextTemp);
      files := files[name := FileObject(nextId, 0, [], true)];
      nextId, nextTemp := nextId + 1, nextTemp + 1;
      return Some(name);
    }

    /** Writing to an open temporary file; what arrives is only certain when everything works. */
    method WriteAll(name: Name, data: Content) returns (ok: bool)
      requires Valid() && name in files
      modifies `files
      ensures Valid()
      ensures name in files && files == old(files)[name := files[name]]
      ensures files[name].regular == old(files)[name].regular
      ensures calm ==> ok && files[name].content == data
    {
      var arrived: Content := *;
      var stamp: nat := *;
      files := files[name := files[name].(content := if calm then data else arrived, stamp := stamp)];
      var failed := Fails();
      return !failed;
    }

    /** `os.Remove`; a missing file counts as removed. */
    method Remove(name: Name) returns (ok: bool)
      requires Valid()
      modifies `files
      ensures Valid()
      ensures files == (if ok then old(files) - {name} else old(files))
      ensures removesWork ==> ok
    {
      ok := *;
      ok := ok || removesWork;
      if ok { files := files - {name}; }
    }

    /** `platform.ReplaceFile`, and `platform.RenameNoReplace` when nothing may be replaced: atomic. */
    method Move(src: Name, replace: bool) returns (ok: bool)
      requires Valid() && src in files && src != Target
      modifies `files
      ensures Valid()
      ensures files == (if ok then old(files)[Target := old(files)[src]] - {src} else old(files))
      ensures calm && (replace || Target !in old(files)) ==> ok
      ensures !replace && Target in old(files) ==> !ok
    {
      var failed := Fails();
      if failed || (!replace && Target in files) { return false; }
      files := files[Target := files[src]] - {src};
      return true;
    }

    /** `digestStableInstallerFile` without interference during the call. */
    method Digest(name: Name) returns (r: Option<Seen>)
      ensures r.Some? ==> name in files && files[name].regular && r.value == See(files[name])
      ensures calm && name in files && files[name].regular ==> r.Some?
    {
      var failed := Fails();
      if failed || name !in files || !files[name].regular { return None; }
      return Some(See(files[name]));
    }
  }

  /** Nothing fails. */
  predicate Works(machine: Machine)
    reads machine
  {
    machine.calm && machine.steady && machine.removesWork
  }

  /** `fileBackup` */
  class FileBackup {
    const machine: Machine
    const backup: Option<Name>      // none when there was no target
    const original: Option<Seen>
    const backupInfo: Option<Seen>
    var activated: bool
    var installed: Option<Seen>
    ghost var swapped: bool         // the target was in fact replaced

    constructor (machine: Machine, backup: Option<Name>, original: Option<Seen>, backupInfo: Option<Seen>)
      ensures this.machine == machine && this.backup == backup && this.original == original
      ensures this.backupInfo == backupInfo
      ensures !activated && installed.None? && !swapped
    {
      this.machine, this.backup, this.original, this.backupInfo := machine, backup, original, backupInfo;
      activated, installed, swapped := false, None, false;
    }

    predicate Existed() { backup.Some? }

    predicate WellFormed()
    {
      (backup.Some? ==> backup.value.Temp? && original.Some? && backupInfo.Some?) && (backup.None? ==> original.None?)
    }

    /** The backup is the one that was made, with the original content. */
    predicate BackupGood(files: Files)
    {
      backup.Some? && original.Some? && backupInfo.Some? && backup.value in files && files[backup.value].regular &&
      SameStable(backupInfo.value, See(files[backup.value])) && files[backup.value].content == original.value.digest
    }

    /** The backup is the very object that was made, unchanged. */
    predicate FromBackup(files: Files)
    {
      backup.Some? && backupInfo.Some? && backup.value in files && files[backup.value].id == backupInfo.value.id &&
      files[backup.value].stamp == backupInfo.value.stamp && |files[backup.value].content| == backupInfo.value.size
    }

    /** The target is the object that was recorded as installed, with the recorded content. */
    predicate OwnsTarget(files: Files)
      reads this
    {
      installed.Some? && Target in files && files[Target].regular &&
      files[Target].id == installed.value.id && files[Target].content == installed.value.digest
    }

    /** The target is, byte for byte, the original, or absent if there was none. */
    predicate Restored(files: Files)
    {
      if original.Some? then Target in files && files[Target].content == original.value.digest else Target !in files
    }

    /** The target is still what was backed up, or still missing. */
    predicate Untouched(files: Files)
    {
      if Existed() then
        original.Some? && Target in files && files[Target].regular && See(files[Target]) == original.value
      else Target !in files
    }

    method VerifyBeforeInstall() returns (ok: bool)
      requires WellFormed()
      ensures ok && !Existed() ==> Target !in machine.files
      ensures ok && Existed() ==> Target in machine.files && machine.files[Target].regular
      ensures ok && Existed() ==> SameStable(original.value, See(machine.files[Target]))
      ensures ok && Existed() ==> machine.files[Target].content == original.value.digest
      ensures Works(machine) && Untouched(machine.files) ==> ok
    {
      ok := machine.VerifyDirectory();
      if !ok { return false; }
      if !Existed() {
        var failed := machine.Fails();
        if failed || Target in machine.files { return false; }
        ok := machine.VerifyDirectory();
        return;
      }
      var current := machine.Digest(Target);
      if current.None? { return false; }
      ok := machine.VerifyDirectory();
      if !ok { return false; }
      return SameStable(original.value, current.value) && current.value.digest == original.value.digest;
    }

    method RecordActivated(expected: Content) returns (ok: bool)
      modifies this`activated, this`installed
      ensures machine.steady ==> activated
      ensures old(activated) ==> activated
      ensures installed == old(installed) || (activated && OwnsTarget(machine.files))
      ensures machine.steady && machine.calm && Target in machine.files && machine.files[Target].regular ==>
                OwnsTarget(machine.files)
      ensures ok ==> activated && OwnsTarget(machine.files) && machine.files[Target].content == expected
      ensures Works(machine) && Target in machine.files && machine.files[Target].regular &&
              machine.files[Target].content == expected ==>
                ok
    {
      ok := machine.VerifyDirectory();
      if !ok { return false; }
      activated := true;
      var current := machine.Digest(Target);
      if current.None? { return false; }
      ok := machine.VerifyDirectory();
      if !ok { return false; }
      installed := current;
      return current.value.digest == expected;
    }

    method VerifyInstalledForRollback() returns (ok: bool)
      requires activated
      ensures ok ==> OwnsTarget(machine.files)
      ensures machine.calm && machine.steady && OwnsTarget(machine.files) ==> ok
    {
      ok := machine.VerifyDirectory();
      if !ok || installed.None? { return false; }
      var current := machine.Digest(Target);
      if current.None? { return false; }
      ok := machine.VerifyDirectory();
      if !ok { return false; }
      return installed.value.id == current.value.id && current.value.digest == installed.value.digest;
    }

    method VerifyBackupForRollback() returns (ok: bool)
      requires WellFormed() && Existed()
      ensures ok ==> BackupGood(machine.files)
      ensures machine.calm && machine.steady && BackupGood(machine.files) ==> ok
    {
      ok := machine.VerifyDirectory();
      if !ok { return false; }
      var current := machine.Digest(backup.value);
      if current.None? { return false; }
      ok := machine.VerifyDirectory();
      if !ok { return false; }
      return SameStable(backupInfo.value, current.value) && current.value.digest == original.value.digest;
    }

    /** `stageRollbackBackup`: a verified copy of the backup. */
    method StageRollbackBackup() returns (staged: Option<Name>)
      requires WellFormed() && Existed() && machine.Valid()
      modifies machine`files, machine`nextId, machine`nextTemp
      ensures machine.Valid()
      ensures staged.Some? ==>
                staged.value.Temp? && staged.value !in old(machine.files) && staged.value in machine.files &&
                               machine.files == old(machine.files)[staged.value := machine.files[staged.value]] &&
                               machine.files[staged.value].regular &&
                               machine.files[staged.value].content == original.value.digest
      ensures staged.Some? ==> FromBackup(old(machine.files))
      ensures staged.None? ==>
                Grew(old(machine.files), machine.files) && (machine.removesWork ==> machine.files == old(machine.files))
      ensures machine.calm && machine.steady && BackupGood(old(machine.files)) ==> staged.Some?
    {
      var ok := VerifyBackupForRollback();
      if !ok { return None; }
      ok := machine.VerifyDirectory();
      if !ok { return None; }
      var data := machine.files[backup.value].content;
      var t := machine.CreateTemp();
      if t.None? { return None; }
      var tmp := t.value;
      assert machine.files - {tmp} == old(machine.files);
      ok := machine.VerifyDirectory();
      if !ok {
        ok := machine.Remove(tmp);
        return None;
      }
      ok := machine.WriteAll(tmp, data);
      assert machine.files - {tmp} == old(machine.files);
      var held := machine.VerifyDirectory();
      if !ok || !held {
        ok := machine.Remove(tmp);
        return None;
      }
      var seen := machine.Digest(tmp);
      ok := machine.VerifyDirectory();
      if seen.None? || !ok || seen.value.digest != original.value.digest {
        ok := machine.Remove(tmp);
        return None;
      }
      return t;
    }

    /**
     * `rollback`, from any state of the machine: success means the original is back; an installed file that is not the
     * recorded one is left alone; and on a working machine it succeeds and leaves nothing else changed.
     */
    method Rollback() returns (ok: bool)
      requires WellFormed() && machine.Valid()
      modifies machine`files, machine`nextId, machine`nextTemp
      ensures machine.Valid() && KeepsOthers(old(machine.files), machine.files)
      ensures !activated ==> ok && machine.files == old(machine.files)
      ensures activated && ok ==> Restored(machine.files)
      ensures activated && !OwnsTarget(old(machine.files)) ==> !ok && machine.files == old(machine.files)
      ensures activated && installed.Some? && Target in old(machine.files) &&
              (old(machine.files)[Target].id != installed.value.id ||
               old(machine.files)[Target].content != installed.value.digest) ==>
                !ok && machine.files == old(machine.files)
      ensures activated && ok && Existed() ==> FromBackup(old(machine.files))
      ensures machine.removesWork ==> SameApartFromTarget(old(machine.files), machine.files)
      ensures Works(machine) && activated && OwnsTarget(old(machine.files)) &&
              (Existed() ==> BackupGood(old(machine.files))) ==>
                ok
    {
      if !activated { return true; }
      ok := machine.VerifyDirectory();
      if !ok { return false; }
      ok := VerifyInstalledForRollback();
      if !ok { return false; }
      if !Existed() {
        ok := machine.Remove(Target);
        if !ok { return false; }
        ok := machine.VerifyDirectory();
        return;
      }
      var staged := StageRollbackBackup();
      if staged.None? { return false; }
      var tmp := staged.value;
      ok := machine.VerifyDirectory();
      if ok { ok := machine.Move(tmp, true); }
      if ok { ok := ConfirmRestored(); }
      var removed := machine.Remove(tmp);
    }

    method ConfirmRestored() returns (ok: bool)
      requires WellFormed() && Existed()
      ensures ok ==> Target in machine.files && machine.files[Target].content == original.value.digest
      ensures machine.calm && machine.steady && Restored(machine.files) && machine.files[Target].regular ==> ok
    {
      ok := machine.VerifyDirectory();
      if !ok { return false; }
      var seen := machine.Digest(Target);
      if seen.None? { return false; }
      ok := machine.VerifyDirectory();
      return ok && seen.value.digest == original.value.digest;
    }

    /** `installFile`: stage, check, swap, record. */
    method InstallFile(data: Content) returns (ok: bool)
      requires WellFormed() && machine.Valid() && !activated && !swapped
      modifies this`activated, this`installed, this`swapped, machine`files, machine`nextId, machine`nextTemp
      ensures machine.Valid() && KeepsOthers(old(machine.files), machine.files)
      ensures machine.removesWork ==> SameApartFromTarget(old(machine.files), machine.files)
      ensures !swapped ==> !ok && !activated && Entry(machine.files) == Entry(old(machine.files))
      ensures swapped ==> Existed() == (Target in old(machine.files))
      ensures swapped && Existed() ==>
                var was := old(machine.files)[Target];
                was.id == original.value.id && was.stamp == original.value.stamp &&
                |was.content| == original.value.size && was.content == original.value.digest
      ensures swapped ==>
                Target in machine.files && machine.files[Target].regular && machine.files[Target].content == data
      ensures swapped && machine.steady ==> activated
      ensures installed == old(installed) || (activated && OwnsTarget(machine.files))
      ensures swapped && machine.steady && machine.calm ==> OwnsTarget(machine.files)
      ensures ok ==> swapped && activated && OwnsTarget(machine.files)
      ensures Works(machine) && Untouched(old(machine.files)) ==> ok
    {
      var staged := StageVerified(machine, data);
      if staged.None? { return false; }
      var tmp := staged.value;
      ok := VerifyBeforeInstall();
      if !ok {
        var removed := machine.Remove(tmp);
        return false;
      }
      ok := machine.Move(tmp, Existed());
      if !ok {
        var removed := machine.Remove(tmp);
        return false;
      }
      swapped := true;
      ok := RecordActivated(data);
    }

    /** `cleanup`: the backup is removed while the directory is still the pinned one. */
    method Cleanup()
      requires WellFormed() && machine.Valid()
      modifies machine`files
      ensures machine.Valid()
      ensures machine.files == old(machine.files) || (Existed() && machine.files == old(machine.files) - {backup.value})
      ensures machine.steady && machine.removesWork && Existed() ==> backup.value !in machine.files
    {
      if Existed() {
        var ok := machine.VerifyDirectory();
        if ok { ok := machine.Remove(backup.value); }
      }
    }
  }

  function Entry(files: Files): Option<FileObject>
  {
    if Target in files then Some(files[Target]) else None
  }

  /** `stageVerified`: a new file holding exactly the payload, or nothing. */
  method StageVerified(machine: Machine, data: Content) returns (staged: Option<Name>)
    requires machine.Valid()
    modifies machine`files, machine`nextId, machine`nextTemp
    ensures machine.Valid()
    ensures staged.Some? ==>
              staged.value.Temp? && staged.value !in old(machine.files) && staged.value in machine.files &&
                             machine.files == old(machine.files)[staged.value := machine.files[staged.value]] &&
                             machine.files[staged.value].regular && machine.files[staged.value].content == data
    ensures staged.None? ==>
              Grew(old(machine.files), machine.files) && (machine.removesWork ==> machine.files == old(machine.files))
    ensures machine.calm ==> staged.Some?
  {
    var t := machine.CreateTemp();
    if t.None? { return None; }
    var tmp := t.value;
    var ok := machine.WriteAll(tmp, data);
    assert machine.files - {tmp} == old(machine.files);
    if !ok {
      ok := machine.Remove(tmp);
      return None;
    }
    var seen := machine.Digest(tmp);
    if seen.None? || seen.value.size != |data| || seen.value.digest != data {
      ok := machine.Remove(tmp);
      return None;
    }
    return t;
  }

  /** `backupExisting`: a verified copy of the target, a note that there is none, or a failure. */
  method BackupExisting(machine: Machine) returns (r: Option<FileBackup>)
    requires machine.Valid()
    modifies machine`files, machine`nextId, machine`nextTemp
    ensures machine.Valid() && Grew(old(machine.files), machine.files)
    ensures Entry(machine.files) == Entry(old(machine.files))
    ensures r.None? && machine.removesWork ==> machine.files == old(machine.files)
    ensures Works(machine) && (Target in old(machine.files) ==> old(machine.files)[Target].regular) ==> r.Some?
    ensures r.Some? ==> r.value.Untouched(machine.files)
    ensures r.Some? ==> fresh(r.value) && r.value.machine == machine && r.value.WellFormed()
    ensures r.Some? ==> !r.value.activated && !r.value.swapped && r.value.installed.None?
    ensures r.Some? ==> (r.value.Existed() <==> Target in old(machine.files)) && r.value.Restored(old(machine.files))
    ensures r.Some? && r.value.Existed() ==>
              r.value.backup.value !in old(machine.files) && r.value.BackupGood(machine.files) &&
                                             machine.files - {r.value.backup.value} == old(machine.files)
    ensures r.Some? && !r.value.Existed() ==> machine.files == old(machine.files)
  {
    var ok := machine.VerifyDirectory();
    if !ok { return None; }
    ok := machine.Fails();
    if ok { return None; }
    if Target !in machine.files {
      var none := new FileBackup(machine, None, None, None);
      return Some(none);
    }
    if !machine.files[Target].regular { return None; }
    ok := machine.VerifyDirectory();
    if !ok { return None; }
    var source := See(machine.files[Target]);
    var t := machine.CreateTemp();
    if t.None? { return None; }
    var name := t.value;
    ok := machine.WriteAll(name, source.digest);
    assert machine.files - {name} == old(machine.files);
    var held := machine.VerifyDirectory();
    if !ok || !held {
      ok := machine.Remove(name);
      return None;
    }
    var seen := machine.Digest(name);
    held := machine.VerifyDirectory();
    if seen.None? || !held || seen.value.digest != source.digest || seen.value.size != source.size {
      ok := machine.Remove(name);
      return None;
    }
    var b := new FileBackup(machine, Some(name), Some(source), seen);
    return Some(b);
  }

  /** At most new temporary files were added. */
  predicate Grew(a: Files, b: Files)
  {
    (forall n :: n in a ==> n in b && b[n] == a[n]) && forall n :: n in b && n !in a ==> n.Temp?
  }

  /** The target is missing or a regular file. */
  predicate RegularTarget(files: Files)
  {
    Target in files ==> files[Target].regular
  }

  /** How a run ends; a rollback reports whether it succeeded. */
  datatype Ending = NotStarted | Committed | RolledBack(clean: bool)

  /**
   * The file steps of `runInstaller`. `captured` is whether the registry snapshot between backup and installation is
   * taken, `registered` whether all registry writes succeed; `calmLater` is whether the machine works once the rollback
   * begins, whatever failed before. `lost` says that the target was replaced but the read that would have recorded the
   * installed object failed; `missed`, that already the directory check before it did. A rollback that reports success
   * has restored the target exactly unless that check was missed.
   */
  method Run(machine: Machine, data: Content, captured: bool, registered: bool, calmLater: bool)
    returns (r: Ending, ghost lost: bool, ghost missed: bool)
    requires machine.Valid()
    modifies machine
    ensures machine.Valid()
    ensures machine.steady == old(machine.steady) && machine.removesWork == old(machine.removesWork)
    ensures r.NotStarted? ==> Entry(machine.files) == Entry(old(machine.files))
    ensures machine.removesWork && machine.steady ==> SameApartFromTarget(old(machine.files), machine.files)
    ensures !captured ==> r.NotStarted?
    ensures r.Committed? ==> registered && Target in machine.files && machine.files[Target].content == data
    ensures r.RolledBack? && r.clean && !missed ==> SameTarget(old(machine.files), machine.files)
    ensures missed ==>
              !machine.steady && r == RolledBack(true) && Target in machine.files &&
              machine.files[Target].content == data
    ensures r.RolledBack? && machine.steady && machine.removesWork && calmLater ==> (r.clean <==> !lost)
    ensures lost && machine.steady ==>
              r == RolledBack(false) && Target in machine.files && machine.files[Target].content == data
    ensures old(machine.calm) && machine.steady ==> !lost
    ensures old(Works(machine)) && captured && registered && RegularTarget(old(machine.files)) ==> r.Committed?
  {
    lost, missed := false, false;
    var b := BackupExisting(machine);
    if b.None? { return NotStarted, false, false; }
    var backup := b.value;
    if !captured {
      backup.Cleanup();
      return NotStarted, false, false;
    }
    var ok := backup.InstallFile(data);
    lost := backup.swapped && backup.activated && backup.installed.None?;
    missed := backup.swapped && !backup.activated;
    if ok && registered {
      backup.Cleanup();
      return Committed, lost, missed;
    }
    machine.calm := calmLater;
    var clean := backup.Rollback();
    backup.Cleanup();
    return RolledBack(clean), lost, missed;
  }
}
