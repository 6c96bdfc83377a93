// The same protocol as one process runs it: the calls in their order, on a
// bound directory and on the flags the program keeps. What each call leaves on
// the disk is the disk function the state machine uses for it.
module OwnershipSession {
  import opened Prelude
  import opened ControlPlaneNames
  import opened ControlPlaneDisk
  import opened OwnershipProtocol
  import opened OwnershipSafety
  import opened OwnershipSteps
  import opened OwnershipInvariant

  /* --------------------------- a bound directory ------------------------ */

  class BoundDirectory {
    var disk: Disk
    var closed: bool

    constructor (disk: Disk)
      ensures this.disk == disk && !closed
    {
      this.disk := disk;
      closed := false;
    }

    // O_CREAT | O_EXCL with mode 0600.
    method CreateExclusive(name: Name, file: FileId, umask: Mode) returns (created: bool)
      modifies this`disk
      ensures created == (name !in Live(old(disk)).names)
      ensures disk == if created then CreateFile(old(disk), name, file, umask) else old(disk)
    {
      created := name !in Live(disk).names;
      if created { disk := CreateFile(disk, name, file, umask); }
    }

    method Protect(file: FileId)
      modifies this`disk
      ensures disk == ProtectFile(old(disk), file)
    {
      disk := ProtectFile(disk, file);
    }

    method Write(file: FileId, value: JsonValue)
      modifies this`disk
      ensures disk == WriteAndSync(old(disk), file, value)
    {
      disk := WriteAndSync(disk, file, value);
    }

    method RenameInto(source: Name, destination: RecordFile, installs: seq<Install>)
      modifies this`disk
      ensures disk == Append(old(disk), Rename(source, RecordName(destination), installs))
    {
      disk := Append(disk, Rename(source, RecordName(destination), installs));
    }

    method Remove(name: Name) returns (removed: bool)
      modifies this`disk
      ensures removed == (name in Live(old(disk)).names)
      ensures disk == if removed then Append(old(disk), Unlink(name)) else old(disk)
    {
      removed := name in Live(disk).names;
      if removed { disk := Append(disk, Unlink(name)); }
    }

    method Sync()
      modifies this`disk
      ensures disk == SyncDirectory(old(disk))
    {
      disk := SyncDirectory(disk);
    }

    // Every entry once, in no particular order.
    method List() returns (names: seq<Name>)
      ensures forall name :: name in names <==> name in Live(disk).names
      ensures forall i, j | 0 <= i < j < |names| :: names[i] != names[j]
    {
      names := [];
      var rest := Live(disk).names.Keys;
      while rest != {}
        invariant rest <= Live(disk).names.Keys
        invariant forall name :: name in names <==> name in Live(disk).names && name !in rest
        invariant forall i, j | 0 <= i < j < |names| :: names[i] != names[j]
        decreases |rest|
      {
        var name :| name in rest;
        names, rest := names + [name], rest - {name};
      }
    }

    // Closes the descriptor once, however often it is called.
    method Close() returns (attempted: bool)
      modifies this`closed
      ensures closed && attempted == !old(closed)
    {
      attempted := !closed;
      closed := true;
    }
  }

  /* ---------------------------- atomic writes --------------------------- */

  // One record write: who writes what where.
  datatype Write = Write(
    umask: Mode,
    file: FileId,
    temp: Name,
    destination: RecordFile,
    value: JsonValue,
    installs: seq<Install>)

  function Perform(disk: Disk, w: Write, phase: WritePhase): Disk {
    WriteDisk(disk, w.umask, w.file, w.temp, w.destination, w.value, w.installs, phase)
  }

  // The disk just before the given phase of a write that started on `disk`.
  function Before(disk: Disk, w: Write, phase: WritePhase): Disk {
    if phase == ToCreate then disk
    else
      var created := Perform(disk, w, ToCreate);
      if phase == ToProtect then created
      else
        var protected := Perform(created, w, ToProtect);
        if phase == ToWrite then protected
        else
          var written := Perform(protected, w, ToWrite);
          if phase == ToRename then written else Perform(written, w, ToRename)
  }

  function Written(disk: Disk, w: Write): Disk {
    Perform(Before(disk, w, ToSync), w, ToSync)
  }

  method AtomicWriteJson(directory: BoundDirectory, w: Write, failAt: Option<WritePhase>) returns (ok: bool)
    modifies directory`disk
    ensures w.temp in Live(old(directory.disk)).names ==> !ok && directory.disk == old(directory.disk)
    ensures w.temp !in Live(old(directory.disk)).names ==>
      ok == failAt.None? &&
      directory.disk == (if ok then Written(old(directory.disk), w) else Before(old(directory.disk), w, failAt.value))
  {
    assert failAt.Some? ==> var phase := failAt.value;
      phase.ToCreate? || phase.ToProtect? || phase.ToWrite? || phase.ToRename? || phase.ToSync?;
    if failAt == Some(ToCreate) { return false; }
    ok := directory.CreateExclusive(w.temp, w.file, w.umask);
    if !ok { return; }
    if failAt == Some(ToProtect) { return false; }
    directory.Protect(w.file);
    if failAt == Some(ToWrite) { return false; }
    directory.Write(w.file, w.value);
    if failAt == Some(ToRename) { return false; }
    directory.RenameInto(w.temp, w.destination, w.installs);
    if failAt == Some(ToSync) { return false; }
    directory.Sync();
  }

  /* -------------------- what a record write leaves behind ---------------- */

  predicate CanWrite(root: Root, used: set<string>, disk: Disk, w: Write) {
    && CrashSafe(root, used, disk) && KeepsOwnerAccess(w.umask)
    && w.temp.TempName? && w.temp.incarnation in used && WellNamed(w.temp)
    && w.temp !in Live(disk).names && w.file !in disk.inodes
  }

  predicate ReadyToRename(before: Disk, after: Disk, w: Write) {
    && Live(after) == Live(before).(names := Live(before).names[w.temp := w.file])
    && StableOn(after) == StableOn(before)
    && after.inodes.Keys == before.inodes.Keys + {w.file}
    && after.inodes[w.file].synced && after.inodes[w.file].content == Json(w.value)
  }

  lemma UpToRename(root: Root, used: set<string>, disk: Disk, w: Write, phase: WritePhase)
    requires CanWrite(root, used, disk, w) && phase != ToSync
    ensures CrashSafe(root, used, Before(disk, w, phase))
    ensures phase == ToRename ==> ReadyToRename(disk, Before(disk, w, phase), w)
  {
    CreateFacts(root, used, disk, w.temp, w.file, w.umask);
    var created := Perform(disk, w, ToCreate);
    assert created.inodes.Keys == disk.inodes.Keys + {w.file};
    ProtectFacts(root, used, created, w.temp);
    assert Perform(created, w, ToProtect) == created;
    WriteFacts(root, used, created, w.file, w.value);
  }

  lemma StableWritten(root: Root, used: set<string>, disk: Disk, w: Write, record: StableRecord, phase: WritePhase)
    requires CanWrite(root, used, disk, w) && StableOn(disk).Absent?
    requires w.destination == StableFile && w.value == StableJson(record) && w.installs == []
    requires StableSchema(record) && StableMatchesRoot(record, root)
    ensures CrashSafe(root, used, Before(disk, w, phase)) && CrashSafe(root, used, Written(disk, w))
    ensures Live(Written(disk, w)) == Live(disk).(names := Live(disk).names[RecordName(StableFile) := w.file])
    ensures StableOn(Written(disk, w)) == Present(record)
    ensures Written(disk, w).inodes.Keys == disk.inodes.Keys + {w.file} && Written(disk, w).pending == []
  {
    UpToRename(root, used, disk, w, ToRename);
    if phase != ToSync { UpToRename(root, used, disk, w, phase); }
    var ready := Before(disk, w, ToRename);
    RenameStableFacts(root, used, ready, w.temp, record);
    assert Before(disk, w, ToSync) == Append(ready, Rename(w.temp, RecordName(StableFile), []));
    RenameMoves(Live(disk).names, w);
    SyncFacts(root, used, Before(disk, w, ToSync));
  }

  lemma WrittenNames(disk: Disk, w: Write)
    requires w.temp.TempName? && w.temp !in Live(disk).names && w.file !in disk.inodes
    ensures Live(Written(disk, w)).names == Live(disk).names[RecordName(w.destination) := w.file]
  {
    var created := Perform(disk, w, ToCreate);
    AtAppend(disk.(inodes := created.inodes), Link(w.temp, w.file));
    SameLive(disk, created.inodes);
    var written := Before(disk, w, ToRename);
    SameLive(created, written.inodes);
    AtAppend(written, Rename(w.temp, RecordName(w.destination), w.installs));
    RenameMoves(Live(disk).names, w);
    var renamed := Before(disk, w, ToSync);
    assert Live(SyncDirectory(renamed)) == Live(renamed) by { assert SyncDirectory(renamed).pending[..0] == []; }
  }

  // The file of a finished write: protected whatever the umask, and synced.
  lemma WrittenFile(disk: Disk, w: Write)
    ensures w.file in Written(disk, w).inodes
    ensures Written(disk, w).inodes[w.file]
            == Inode(true, true, CreationMode(w.umask), PROTECTED, Json(w.value), true)
  {
    var created := Perform(disk, w, ToCreate);
    var mode := CreationMode(w.umask);
    assert created.inodes[w.file] == Inode(true, true, mode, mode, Torn, false);
    var protected := Perform(created, w, ToProtect);
    assert protected.inodes[w.file] == Inode(true, true, mode, PROTECTED, Torn, false);
    var written := Perform(protected, w, ToWrite);
    assert written.inodes[w.file] == Inode(true, true, mode, PROTECTED, Json(w.value), true);
    assert Written(disk, w).inodes == written.inodes;
  }

  lemma SameLive(disk: Disk, inodes: map<FileId, Inode>)
    ensures Live(disk.(inodes := inodes)) == Live(disk)
  {
  }

  // A finished write of an owner record is read back as it was written, whatever
  // the umask it was written under and whatever was there before.
  lemma OwnerReads(disk: Disk, w: Write, record: OwnerRecord)
    requires w.temp.TempName? && w.temp !in Live(disk).names && w.file !in disk.inodes
    requires w.destination == OwnerFile && w.value == OwnerJson(record) && OwnerSchema(record)
    ensures ReadOwner(Written(disk, w).inodes, Live(Written(disk, w)).names) == Present(record)
  {
    WrittenNames(disk, w);
    WrittenFile(disk, w);
  }

  lemma RenameMoves(names: map<Name, FileId>, w: Write)
    requires w.temp !in names && w.temp.TempName?
    ensures (names[w.temp := w.file] - {w.temp})[RecordName(w.destination) := w.file]
        == names[RecordName(w.destination) := w.file]
  {
    assert names[w.temp := w.file] - {w.temp} == names;
  }

  lemma OwnerWritten(root: Root, used: set<string>, disk: Disk, w: Write, record: OwnerRecord, install: Install,
                     phase: WritePhase)
    requires CanWrite(root, used, disk, w) && StableOn(disk).Present? && LockName in Live(disk).names
    requires w.destination == OwnerFile && w.value == OwnerJson(record) && w.installs == [install]
    requires OwnerSchema(record) && RecordsMatch(StableOn(disk).record, record, root, Live(disk).names[LockName])
    requires GoodInstalls(Live(disk).installs + [install]) && install.incarnation in used
    requires record.incarnationId == install.incarnation && (record.state == Owned <==> install.OwnedBy?)
    ensures CrashSafe(root, used, Before(disk, w, phase)) && CrashSafe(root, used, Written(disk, w))
    ensures Live(Written(disk, w))
        == Entry(Live(disk).names[RecordName(OwnerFile) := w.file], Live(disk).installs + [install])
    ensures StableOn(Written(disk, w)) == StableOn(disk) && Written(disk, w).pending == []
  {
    UpToRename(root, used, disk, w, ToRename);
    if phase != ToSync { UpToRename(root, used, disk, w, phase); }
    var ready := Before(disk, w, ToRename);
    RenameOwnerFacts(root, used, ready, w.temp, record, install);
    assert Before(disk, w, ToSync) == Append(ready, Rename(w.temp, RecordName(OwnerFile), [install]));
    RenameMoves(Live(disk).names, w);
    SyncFacts(root, used, Before(disk, w, ToSync));
  }

  /* ----------------------- reading under the lock ----------------------- */

  // Opens the lock file, creating it if there is none, and checks its mode.
  method OpenPersistentFile(directory: BoundDirectory, file: FileId, umask: Mode, failAt: Option<Pc>,
                            ghost root: Root, ghost used: set<string>)
      returns (lock: Option<FileId>, reason: Refusal)
    requires file !in directory.disk.inodes
    modifies directory`disk
    ensures var before, after := Live(old(directory.disk)), Live(directory.disk);
            after == if LockName in before.names || failAt == Some(OpenLock) then before
                     else before.(names := before.names[LockName := file])
    ensures lock.Some? ==> LockName in Live(directory.disk).names && Live(directory.disk).names[LockName] == lock.value
    ensures directory.disk.inodes.Keys <= old(directory.disk).inodes.Keys + {file}
    ensures CrashSafe(root, used, old(directory.disk)) && KeepsOwnerAccess(umask) ==>
      && CrashSafe(root, used, directory.disk) && StableOn(directory.disk) == StableOn(old(directory.disk))
      && (lock.None? ==> reason == EnvironmentFault)
      && (lock.Some? <==> failAt !in {Some(OpenLock), Some(CheckLock)} &&
                          (failAt == Some(ProtectLock) ==> LockName in Live(old(directory.disk)).names))
  {
    reason := EnvironmentFault;
    if failAt == Some(OpenLock) { return None, EnvironmentFault; }
    ghost var before := directory.disk;
    var created := directory.CreateExclusive(LockName, file, umask);
    if created { LockCreated(root, used, before, file, umask); }
    var found := Live(directory.disk).names[LockName];
    if created {
      if failAt == Some(ProtectLock) { return None, EnvironmentFault; }
      directory.Protect(found);
    }
    if failAt == Some(CheckLock) { return None, EnvironmentFault; }
    assert CrashSafe(root, used, directory.disk)
        ==> GoodEntry(root, directory.disk.inodes, used, At(directory.disk, |directory.disk.pending|));
    if found !in directory.disk.inodes || !Protected(directory.disk.inodes[found]) {
      return None, BadEvidence(LockNotProtected);
    }
    lock := Some(found);
  }

  lemma LockCreated(root: Root, used: set<string>, disk: Disk, file: FileId, umask: Mode)
    requires LockName !in Live(disk).names && file !in disk.inodes
    ensures var after := CreateFile(disk, LockName, file, umask);
            && Live(after) == Live(disk).(names := Live(disk).names[LockName := file])
            && Live(ProtectFile(after, file)) == Live(after)
            && (CrashSafe(root, used, disk) && KeepsOwnerAccess(umask) ==>
                && CrashSafe(root, used, after) && StableOn(after) == StableOn(disk)
                   && ProtectFile(after, file) == after)
  {
    var mode := CreationMode(umask);
    var inodes := disk.inodes[file := Inode(true, true, mode, mode, Torn, false)];
    AtAppend(disk.(inodes := inodes), Link(LockName, file));
    if CrashSafe(root, used, disk) && KeepsOwnerAccess(umask) {
      CreateFacts(root, used, disk, LockName, file, umask);
      ProtectFacts(root, used, CreateFile(disk, LockName, file, umask), LockName);
    }
  }

  // The leftovers to remove, or nothing when an entry is not one of ours.
  method InventoryEntry(directory: BoundDirectory) returns (safeTemps: Option<seq<Name>>)
    ensures safeTemps.Some? <==> InventoryPasses(directory.disk.inodes, Live(directory.disk).names)
    ensures safeTemps.Some? ==>
      && (forall name :: name in safeTemps.value <==> name in Temps(Live(directory.disk).names))
      && (forall i, j | 0 <= i < j < |safeTemps.value| :: safeTemps.value[i] != safeTemps.value[j])
  {
    var entry := Live(directory.disk);
    var names := directory.List();
    var temps: seq<Name> := [];
    for i := 0 to |names|
      invariant entry == Live(directory.disk)
      invariant forall name | name in names[..i] :: SafeLeftover(directory.disk.inodes, entry.names, name)
      invariant forall name :: name in temps <==> name in names[..i] && name.TempName?
      invariant forall j, k | 0 <= j < k < |temps| :: temps[j] != temps[k]
    {
      var name := names[i];
      assert names[..i + 1] == names[..i] + [name];
      if !name.LockName? && !name.RecordName? {
        if name.ForeignName? || entry.names[name] !in directory.disk.inodes
           || !Protected(directory.disk.inodes[entry.names[name]]) {
          assert !SafeLeftover(directory.disk.inodes, entry.names, name);
          return None;
        }
        temps := temps + [name];
      }
    }
    assert names[..|names|] == names;
    safeTemps := Some(temps);
  }

  // Unlinks every leftover, stopping at the first call that fails.
  method RemoveLeftovers(directory: BoundDirectory, temps: seq<Name>, failing: bool, ghost root: Root,
      ghost used: set<string>)
      returns (ok: bool)
    requires forall name | name in temps :: name.TempName? && name in Live(directory.disk).names
    requires forall i, j | 0 <= i < j < |temps| :: temps[i] != temps[j]
    modifies directory`disk
    ensures ok <==> temps == [] || !failing
    ensures ok ==> Live(directory.disk) == Live(old(directory.disk)).(
                     names := Live(old(directory.disk)).names - (set name | name in temps))
    ensures directory.disk.inodes == old(directory.disk).inodes
    ensures CrashSafe(root, used, old(directory.disk)) ==>
      CrashSafe(root, used, directory.disk) && StableOn(directory.disk) == StableOn(old(directory.disk))
  {
    ghost var start := directory.disk;
    for i := 0 to |temps|
      invariant Live(directory.disk).names == Live(start).names - (set name | name in temps[..i])
      invariant Live(directory.disk).installs == Live(start).installs
      invariant directory.disk.inodes == start.inodes
      invariant CrashSafe(root, used, start) ==>
        CrashSafe(root, used, directory.disk) && StableOn(directory.disk) == StableOn(start)
      invariant i > 0 ==> !failing
    {
      if failing { return false; }
      ghost var before := directory.disk;
      assert temps[..i + 1] == temps[..i] + [temps[i]];
      AtAppend(before, Unlink(temps[i]));
      if CrashSafe(root, used, before) { UnlinkFacts(root, used, before, temps[i]); }
      var removed := directory.Remove(temps[i]);
    }
    assert temps[..|temps|] == temps;
    ok := true;
  }
}
