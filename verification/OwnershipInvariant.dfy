// Preservation of the ownership invariant, action by action, and over runs.
module OwnershipInvariant {
  import opened Prelude
  import opened ControlPlaneNames
  import opened ControlPlaneDisk
  import opened OwnershipProtocol
  import opened OwnershipSafety
  import opened OwnershipSteps

  /* ------------------------- assembling a new state --------------------- */

  ghost predicate OthersOk(t: State, p: nat) {
    forall r | r in t.procs && r != p :: StaticOk(t, r, t.procs[r]) && (t.procs[r].locked ==> WindowOk(t, t.procs[r]))
  }

  lemma Conclude(s: State, t: State, p: nat, q: Process)
    requires Inv(s) && p in s.procs && t.root == s.root && s.used <= t.used
    requires t.procs == s.procs[p := q] && t.log == s.log
    requires CrashSafe(t.root, t.used, t.disk) && Carries(s.disk, t.disk)
    requires OthersOk(t, p) && LocksOk(t)
    requires StaticOk(t, p, q) && (q.locked ==> WindowOk(t, q))
    requires forall marker | marker in Earned(q) :: Supported(t.disk, marker)
    ensures Inv(t)
  {
    forall r, marker | r in t.procs && marker in Earned(t.procs[r])
      ensures Supported(t.disk, marker)
    {
      if r != p {
        assert Supported(s.disk, marker);
      }
    }
  }

  // The holder of the lock takes a step and keeps the lock.
  lemma HolderConclude(s: State, t: State, p: nat, q: Process)
    requires Inv(s) && p in s.procs && s.procs[p].locked && q.locked && q.lockFile == s.procs[p].lockFile
    requires t.root == s.root && s.used <= t.used && t.locks == s.locks
    requires t.procs == s.procs[p := q] && t.log == s.log
    requires CrashSafe(t.root, t.used, t.disk) && Carries(s.disk, t.disk) && SameLockName(s, t)
    requires StaticOk(t, p, q) && WindowOk(t, q)
    requires forall marker | marker in Earned(q) :: Supported(t.disk, marker)
    ensures Inv(t)
  {
    OthersAfterHolder(s, t, p, q);
    Conclude(s, t, p, q);
  }

  // A step that leaves the disk alone.
  lemma QuietConclude(s: State, t: State, p: nat, q: Process)
    requires Inv(s) && p in s.procs && t.root == s.root && t.used == s.used && t.disk == s.disk && t.log == s.log
    requires t.procs == s.procs[p := q]
    requires forall file | file in s.locks && s.locks[file] != p :: file in t.locks && t.locks[file] == s.locks[file]
    requires LocksOk(t)
    requires StaticOk(t, p, q) && (q.locked ==> WindowOk(t, q))
    requires forall marker | marker in Earned(q) :: Supported(t.disk, marker)
    ensures Inv(t)
  {
    OthersSameView(s, t, p, q);
    Conclude(s, t, p, q);
  }

  lemma EndKeeps(s: State, p: nat, q: Process, ending: Ending)
    requires Inv(s) && p in s.procs && StaticOk(s, p, q)
    requires q.locked == s.procs[p].locked && q.lockFile == s.procs[p].lockFile
    requires !BadEnding(ending) && ending != CleanRelease
    ensures Inv(End(s, p, q, ending))
  {
    var t, q' := End(s, p, q, ending), q.(pc := Closing(ending));
    QuietConclude(s, t, p, q');
  }

  /* ------------------------- before the lock is held -------------------- */

  lemma OpenExistingLockKeeps(s: State, p: nat, file: FileId)
    requires Inv(s) && p in s.procs && s.procs[p].pc == OpenLock && LockName in Names(s)
    ensures Inv(OpenLockStep(s, p, s.procs[p], file))
  {
    var q := s.procs[p];
    var q' := q.(pc := CheckLock, lockFile := Names(s)[LockName]);
    assert StaticOk(s, p, q);
    QuietConclude(s, Put(s, p, q'), p, q');
  }

  lemma CreateLockKeeps(s: State, p: nat, file: FileId)
    requires Inv(s) && p in s.procs && s.procs[p].pc == OpenLock && LockName !in Names(s) && file !in s.disk.inodes
    ensures Inv(OpenLockStep(s, p, s.procs[p], file))
  {
    var q := s.procs[p];
    var q' := q.(pc := ProtectLock, lockFile := file);
    var t := Put(s.(disk := CreateFile(s.disk, LockName, file, q.umask)), p, q');
    assert StaticOk(s, p, q);
    CreateFacts(s.root, s.used, s.disk, LockName, file, q.umask);
    NobodyHoldsWithoutLock(s, t, p, q');
    Conclude(s, t, p, q');
  }

  lemma NobodyHoldsWithoutLock(s: State, t: State, p: nat, q: Process)
    requires Inv(s) && LockName !in Names(s)
    requires t.root == s.root && t.used == s.used && t.locks == s.locks && t.procs == s.procs[p := q]
    ensures LocksOk(t) && OthersOk(t, p)
  {
    forall r | r in s.procs
      ensures !KnowsLock(s.procs[r]) && StaticOk(s, r, s.procs[r])
    {
      assert StaticOk(s, r, s.procs[r]);
    }
  }

  lemma ProtectLockKeeps(s: State, p: nat)
    requires Inv(s) && p in s.procs && s.procs[p].pc == ProtectLock
    ensures Inv(Put(s.(disk := ProtectFile(s.disk, s.procs[p].lockFile)), p, s.procs[p].(pc := CheckLock)))
  {
    assert StaticOk(s, p, s.procs[p]);
    ProtectFacts(s.root, s.used, s.disk, LockName);
    AfterProtectLock(s, p);
  }

  lemma AfterProtectLock(s: State, p: nat)
    requires Inv(s) && p in s.procs && s.procs[p].pc == ProtectLock
    ensures Inv(Put(s, p, s.procs[p].(pc := CheckLock)))
  {
    var q' := s.procs[p].(pc := CheckLock);
    assert StaticOk(s, p, s.procs[p]);
    QuietConclude(s, Put(s, p, q'), p, q');
  }

  // The lock file always passes its own mode check.
  lemma LockIsProtected(s: State, p: nat)
    requires Inv(s) && p in s.procs && s.procs[p].pc == CheckLock
    ensures CheckLockStep(s, p, s.procs[p]) == Put(s, p, s.procs[p].(pc := TakeLock))
  {
    assert StaticOk(s, p, s.procs[p]);
    LiveGood(s);
  }

  lemma AfterCheckLock(s: State, p: nat)
    requires Inv(s) && p in s.procs && s.procs[p].pc == CheckLock
    ensures Inv(Put(s, p, s.procs[p].(pc := TakeLock)))
  {
    var q := s.procs[p];
    var q' := q.(pc := TakeLock);
    assert StaticOk(s, p, q);
    assert !q'.locked;
    QuietConclude(s, Put(s, p, q'), p, q');
  }

  lemma CheckLockKeeps(s: State, p: nat)
    requires Inv(s) && p in s.procs && s.procs[p].pc == CheckLock
    ensures Inv(CheckLockStep(s, p, s.procs[p]))
  {
    LockIsProtected(s, p);
    AfterCheckLock(s, p);
  }

  lemma TakeLockKeeps(s: State, p: nat)
    requires Inv(s) && p in s.procs && s.procs[p].pc == TakeLock
    ensures Inv(TakeLockStep(s, p, s.procs[p]))
  {
    var q := s.procs[p];
    assert StaticOk(s, p, q);
    if q.lockFile in s.locks {
      EndKeeps(s, p, q, Conflict);
    } else {
      var t, q' := TakeLockStep(s, p, q), q.(pc := Inventory, locked := true);
      assert LocksOk(t);
      assert q'.claim.Some? ==> ClaimOk(s, q'.claim.value);
      QuietConclude(s, t, p, q');
    }
  }

  /* -------------------------- reading under the lock -------------------- */

  lemma InventoryKeeps(s: State, p: nat)
    requires Inv(s) && p in s.procs && s.procs[p].pc == Inventory
    ensures InventoryPasses(s.disk.inodes, Names(s))
    ensures Inv(InventoryStep(s, p, s.procs[p]))
  {
    var q := s.procs[p];
    assert StaticOk(s, p, q);
    LiveGood(s);
    GoodInventory(s.root, s.disk.inodes, s.used, Live(s.disk));
    QuietConclude(s, InventoryStep(s, p, q), p, q.(pc := ReadRecords, temps := Temps(Names(s))));
  }

  // The records found under the lock are never refused, and the ruling names
  // exactly the last incarnation to install itself without a release.
  lemma ClassifyEntry(root: Root, inodes: map<FileId, Inode>, used: set<string>, entry: Entry, lock: FileId)
    requires GoodEntry(root, inodes, used, entry) && LockName in entry.names && entry.names[LockName] == lock
    ensures var stable := ReadStable(inodes, entry.names);
            Classify(root, lock, stable, ReadOwner(inodes, entry.names))
            == Proceed(if stable.Present? then Some(stable.record) else None, Unreleased(entry.installs))
  {
    var installs := entry.installs;
    assert installs != [] ==> installs[|installs| - 1].OwnedBy? || installs[|installs| - 1].ReleasedBy?;
  }

  lemma ClassifyGood(s: State, p: nat)
    requires Inv(s) && p in s.procs && s.procs[p].pc == ReadRecords
    ensures var stable := StableNow(s);
            Classify(s.root, s.procs[p].lockFile, stable, ReadOwner(s.disk.inodes, Names(s)))
            == Proceed(if stable.Present? then Some(stable.record) else None, Unreleased(Live(s.disk).installs))
  {
    assert StaticOk(s, p, s.procs[p]);
    LiveGood(s);
    ClassifyEntry(s.root, s.disk.inodes, s.used, Live(s.disk), s.procs[p].lockFile);
  }

  lemma FreshNames(s: State, incarnation: string)
    requires Inv(s) && incarnation !in s.used
    ensures forall name | name in Names(s) && name.TempName? :: name.incarnation != incarnation
    ensures !HasInstalled(Live(s.disk).installs, incarnation)
  {
    LiveGood(s);
  }

  lemma ReadRecordsKeeps(s: State, p: nat, incarnation: string, controlPlaneId: string)
    requires Inv(s) && p in s.procs && s.procs[p].pc == ReadRecords
    requires ValidUuid(incarnation) && incarnation !in s.used && ValidUuid(controlPlaneId)
    ensures Inv(ReadRecordsStep(s, p, s.procs[p], incarnation, controlPlaneId))
  {
    var q, t := s.procs[p], ReadRecordsStep(s, p, s.procs[p], incarnation, controlPlaneId);
    assert StaticOk(s, p, q);
    LiveGood(s);
    ClassifyGood(s, p);
    FreshNames(s, incarnation);
    MoreUsed(s.root, s.used, t.used, s.disk);
    var stable := StableNow(s);
    assert stable.Present? ==> StableSchema(stable.record);
    var record := if stable.Present? then stable.record else StableRecord(controlPlaneId, s.root.path, s.root.digest);
    var claim := Claim(incarnation, record, stable.Absent?, Unreleased(Live(s.disk).installs), 0);
    var q' := q.(pc := RemoveTemps, claim := Some(claim));
    assert t == Put(s.(used := t.used), p, q');
    assert WindowOk(t, q');
    HolderConclude(s, t, p, q');
  }

  /* ----------------------------- the record writes ---------------------- */

  ghost predicate IsAt(s: State, p: nat, pc: Pc) {
    p in s.procs && s.procs[p].pc == pc && s.procs[p].claim.Some?
  }

  lemma Holder(s: State, p: nat, pc: Pc)
    requires Inv(s) && IsAt(s, p, pc) && NeedsLock(pc)
    ensures s.procs[p].locked && StaticOk(s, p, s.procs[p]) && WindowOk(s, s.procs[p])
    ensures LockName in Names(s) && Names(s)[LockName] == s.procs[p].lockFile
    ensures ClaimOk(s, s.procs[p].claim.value)
    ensures GoodEntry(s.root, s.disk.inodes, s.used, Live(s.disk))
  {
    assert StaticOk(s, p, s.procs[p]);
    LiveGood(s);
  }

  // Moves on to `pc` without touching anything else.
  lemma MoveKeeps(s: State, p: nat, from: Pc, pc: Pc)
    requires Inv(s) && IsAt(s, p, from) && NeedsLock(from) && NeedsClaim(pc)
    requires WindowOk(s, s.procs[p].(pc := pc))
    requires forall marker | marker in Earned(s.procs[p].(pc := pc)) :: Supported(s.disk, marker)
    ensures Inv(Put(s, p, s.procs[p].(pc := pc)))
  {
    var q' := s.procs[p].(pc := pc);
    Holder(s, p, from);
    HolderConclude(s, Put(s, p, q'), p, q');
  }

  lemma RemoveTempsKeeps(s: State, p: nat, leftover: Name)
    requires Inv(s) && IsAt(s, p, RemoveTemps)
    requires s.procs[p].temps != {} ==> leftover in s.procs[p].temps
    ensures Inv(RemoveTempsStep(s, p, s.procs[p], s.procs[p].claim.value, leftover))
  {
    var q := s.procs[p];
    var claim := q.claim.value;
    Holder(s, p, RemoveTemps);
    if q.temps == {} {
      MoveKeeps(s, p, RemoveTemps, if claim.stableAbsent then WriteStable(ToCreate) else WriteOwner(ToCreate));
    } else {
      assert leftover in Temps(Names(s));
      var q' := q.(temps := q.temps - {leftover});
      var t := Put(s.(disk := Append(s.disk, Unlink(leftover))), p, q');
      UnlinkFacts(s.root, s.used, s.disk, leftover);
      HolderConclude(s, t, p, q');
    }
  }

  // The holder makes one directory or file call and goes on inside its window.
  lemma DiskStep(s: State, p: nat, from: Pc, disk: Disk, q: Process)
    requires Inv(s) && IsAt(s, p, from) && NeedsLock(from)
    requires NeedsClaim(q.pc) && q.claim.Some? && ClaimOk(s, q.claim.value)
    requires q == s.procs[p].(pc := q.pc, claim := q.claim, tempFile := q.tempFile)
    requires CrashSafe(s.root, s.used, disk) && Carries(s.disk, disk)
    requires LockName in Live(disk).names && LockName in Names(s)
    requires Live(disk).names[LockName] == Names(s)[LockName]
    requires WindowOk(Put(s.(disk := disk), p, q), q)
    requires forall marker | marker in Earned(q) :: Supported(disk, marker)
    ensures Inv(Put(s.(disk := disk), p, q))
  {
    Holder(s, p, from);
    var t := Put(s.(disk := disk), p, q);
    assert StaticOk(t, p, q);
    HolderConclude(s, t, p, q);
  }

  // The first call of a record write, whatever it writes.
  lemma CreateTempKeeps(s: State, p: nat, from: Pc, q: Process, destination: RecordFile, file: FileId)
    requires Inv(s) && IsAt(s, p, from) && NeedsLock(from) && NeedsClaim(q.pc) && Earned(q) == {}
    requires q.claim.Some? && ClaimOk(s, q.claim.value)
    requires q == s.procs[p].(pc := q.pc, claim := q.claim, tempFile := file)
    requires file !in s.disk.inodes && NoOwnTemp(s, q, q.claim.value, destination)
    requires WindowOk(Put(s.(disk := CreateFile(s.disk, Own(q, q.claim.value, destination), file, q.umask)), p, q), q)
    ensures Inv(Put(s.(disk := CreateFile(s.disk, Own(q, q.claim.value, destination), file, q.umask)), p, q))
  {
    var temp := Own(q, q.claim.value, destination);
    Holder(s, p, from);
    CreateFacts(s.root, s.used, s.disk, temp, file, q.umask);
    DiskStep(s, p, from, CreateFile(s.disk, temp, file, q.umask), q);
  }

  lemma CreateTempView(s: State, p: nat, from: Pc, temp: Name, file: FileId, umask: Mode)
    requires Inv(s) && IsAt(s, p, from) && NeedsLock(from) && KeepsOwnerAccess(umask)
    requires file !in s.disk.inodes && temp !in Names(s)
    requires temp.TempName? && temp.incarnation in s.used && WellNamed(temp)
    ensures var d := CreateFile(s.disk, temp, file, umask);
            && Live(d) == Live(s.disk).(names := Names(s)[temp := file])
            && StableOn(d) == StableNow(s)
            && d.inodes == s.disk.inodes[file := d.inodes[file]] && !d.inodes[file].synced
  {
    CreateFacts(s.root, s.used, s.disk, temp, file, umask);
  }

  lemma WriteStableCreate(s: State, p: nat, file: FileId)
    requires Inv(s) && IsAt(s, p, WriteStable(ToCreate)) && file !in s.disk.inodes
    ensures Inv(WriteStableStep(s, p, s.procs[p], s.procs[p].claim.value, file, ToCreate))
  {
    var q := s.procs[p];
    var claim := q.claim.value;
    Holder(s, p, WriteStable(ToCreate));
    CreateTempView(s, p, q.pc, Own(q, claim, StableFile), file, q.umask);
    CreateTempKeeps(s, p, q.pc, q.(pc := WriteStable(ToProtect), tempFile := file), StableFile, file);
  }

  lemma WriteStableProtect(s: State, p: nat, file: FileId)
    requires Inv(s) && IsAt(s, p, WriteStable(ToProtect))
    ensures Inv(WriteStableStep(s, p, s.procs[p], s.procs[p].claim.value, file, ToProtect))
  {
    var q := s.procs[p];
    Holder(s, p, q.pc);
    ProtectFacts(s.root, s.used, s.disk, Own(q, q.claim.value, StableFile));
    MoveKeeps(s, p, q.pc, WriteStable(ToWrite));
  }

  lemma WriteStableWrite(s: State, p: nat, file: FileId)
    requires Inv(s) && IsAt(s, p, WriteStable(ToWrite))
    ensures Inv(WriteStableStep(s, p, s.procs[p], s.procs[p].claim.value, file, ToWrite))
  {
    var q := s.procs[p];
    Holder(s, p, q.pc);
    var value := StableJson(q.claim.value.stable);
    WriteFacts(s.root, s.used, s.disk, q.tempFile, value);
    var q' := q.(pc := WriteStable(ToRename));
    DiskStep(s, p, q.pc, WriteAndSync(s.disk, q.tempFile, value), q');
  }

  lemma WriteStableRename(s: State, p: nat, file: FileId)
    requires Inv(s) && IsAt(s, p, WriteStable(ToRename))
    ensures Inv(WriteStableStep(s, p, s.procs[p], s.procs[p].claim.value, file, ToRename))
  {
    var q := s.procs[p];
    Holder(s, p, q.pc);
    var temp := Own(q, q.claim.value, StableFile);
    RenameStableFacts(s.root, s.used, s.disk, temp, q.claim.value.stable);
    var q' := q.(pc := WriteStable(ToSync));
    DiskStep(s, p, q.pc, Append(s.disk, Rename(temp, RecordName(StableFile), [])), q');
  }

  lemma WriteStableSync(s: State, p: nat, file: FileId)
    requires Inv(s) && IsAt(s, p, WriteStable(ToSync))
    ensures Inv(WriteStableStep(s, p, s.procs[p], s.procs[p].claim.value, file, ToSync))
  {
    var q := s.procs[p];
    Holder(s, p, q.pc);
    SyncFacts(s.root, s.used, s.disk);
    var q' := q.(pc := WriteOwner(ToCreate));
    DiskStep(s, p, q.pc, SyncDirectory(s.disk), q');
  }

  lemma WriteStableKeeps(s: State, p: nat, file: FileId, phase: WritePhase)
    requires Inv(s) && IsAt(s, p, WriteStable(phase)) && file !in s.disk.inodes
    ensures Inv(WriteStableStep(s, p, s.procs[p], s.procs[p].claim.value, file, phase))
  {
    match phase
    case ToCreate => WriteStableCreate(s, p, file);
    case ToProtect => WriteStableProtect(s, p, file);
    case ToWrite => WriteStableWrite(s, p, file);
    case ToRename => WriteStableRename(s, p, file);
    case ToSync => WriteStableSync(s, p, file);
  }

  lemma WriteOwnerCreate(s: State, p: nat, file: FileId, now: int)
    requires Inv(s) && IsAt(s, p, WriteOwner(ToCreate)) && file !in s.disk.inodes
    ensures Inv(WriteOwnerStep(s, p, s.procs[p], s.procs[p].claim.value, file, now, ToCreate))
  {
    var q := s.procs[p];
    var claim := q.claim.value;
    Holder(s, p, q.pc);
    CreateTempView(s, p, q.pc, Own(q, claim, OwnerFile), file, q.umask);
    CreateTempKeeps(s, p, q.pc,
        q.(pc := WriteOwner(ToProtect), claim := Some(claim.(acquiredAt := now)), tempFile := file), OwnerFile, file);
  }

  lemma WriteOwnerProtect(s: State, p: nat, file: FileId, now: int)
    requires Inv(s) && IsAt(s, p, WriteOwner(ToProtect))
    ensures Inv(WriteOwnerStep(s, p, s.procs[p], s.procs[p].claim.value, file, now, ToProtect))
  {
    var q := s.procs[p];
    Holder(s, p, q.pc);
    ProtectFacts(s.root, s.used, s.disk, Own(q, q.claim.value, OwnerFile));
    MoveKeeps(s, p, q.pc, WriteOwner(ToWrite));
  }

  lemma WriteOwnerWrite(s: State, p: nat, file: FileId, now: int)
    requires Inv(s) && IsAt(s, p, WriteOwner(ToWrite))
    ensures Inv(WriteOwnerStep(s, p, s.procs[p], s.procs[p].claim.value, file, now, ToWrite))
  {
    var q := s.procs[p];
    Holder(s, p, q.pc);
    var value := OwnerJson(OwnedRecord(s.root, q, q.claim.value));
    WriteFacts(s.root, s.used, s.disk, q.tempFile, value);
    var q' := q.(pc := WriteOwner(ToRename));
    DiskStep(s, p, q.pc, WriteAndSync(s.disk, q.tempFile, value), q');
  }

  lemma WriteOwnerRename(s: State, p: nat, file: FileId, now: int)
    requires Inv(s) && IsAt(s, p, WriteOwner(ToRename))
    ensures Inv(WriteOwnerStep(s, p, s.procs[p], s.procs[p].claim.value, file, now, ToRename))
  {
    var q := s.procs[p];
    var claim := q.claim.value;
    Holder(s, p, q.pc);
    var temp, install := Own(q, claim, OwnerFile), OwnedBy(claim.incarnation, claim.recoveredFrom);
    InstallOwned(Live(s.disk).installs, claim.incarnation, claim.recoveredFrom);
    RenameOwnerFacts(s.root, s.used, s.disk, temp, OwnedRecord(s.root, q, claim), install);
    var q' := q.(pc := WriteOwner(ToSync));
    DiskStep(s, p, q.pc, Append(s.disk, Rename(temp, RecordName(OwnerFile), [install])), q');
  }

  lemma InstallSupports(s: State, q: Process, claim: Claim)
    requires AfterInstall(s, claim)
    ensures Supports(s.disk.inodes, Live(s.disk), AcquiredMarker(claim.stable.controlPlaneId, claim.incarnation))
    ensures claim.recoveredFrom.Some? ==>
      Supports(s.disk.inodes, Live(s.disk),
               RecoveredMarker(claim.stable.controlPlaneId, claim.recoveredFrom.value, claim.incarnation))
  {
    var installs := Live(s.disk).installs;
    assert installs[|installs| - 1].OwnedBy?;
  }

  // Once synced, the install is there for good: the markers it earns are true.
  lemma InstallSynced(s: State, p: nat)
    requires Inv(s) && IsAt(s, p, WriteOwner(ToSync))
    ensures var q := s.procs[p];
            var pc := if q.claim.value.recoveredFrom.Some? then AnnounceRecovered else AnnounceAcquired;
            && CrashSafe(s.root, s.used, SyncDirectory(s.disk)) && Carries(s.disk, SyncDirectory(s.disk))
            && Live(SyncDirectory(s.disk)) == Live(s.disk)
            && forall marker | marker in Earned(q.(pc := pc)) :: Supported(SyncDirectory(s.disk), marker)
  {
    var q := s.procs[p];
    Holder(s, p, q.pc);
    SyncFacts(s.root, s.used, s.disk);
    InstallSupports(s, q, q.claim.value);
  }

  lemma WriteOwnerSync(s: State, p: nat, file: FileId, now: int)
    requires Inv(s) && IsAt(s, p, WriteOwner(ToSync))
    ensures Inv(WriteOwnerStep(s, p, s.procs[p], s.procs[p].claim.value, file, now, ToSync))
  {
    var q := s.procs[p];
    Holder(s, p, q.pc);
    InstallSynced(s, p);
    var q' := q.(pc := if q.claim.value.recoveredFrom.Some? then AnnounceRecovered else AnnounceAcquired);
    DiskStep(s, p, q.pc, SyncDirectory(s.disk), q');
  }

  lemma WriteOwnerKeeps(s: State, p: nat, file: FileId, now: int, phase: WritePhase)
    requires Inv(s) && IsAt(s, p, WriteOwner(phase)) && file !in s.disk.inodes
    ensures Inv(WriteOwnerStep(s, p, s.procs[p], s.procs[p].claim.value, file, now, phase))
  {
    match phase
    case ToCreate => WriteOwnerCreate(s, p, file, now);
    case ToProtect => WriteOwnerProtect(s, p, file, now);
    case ToWrite => WriteOwnerWrite(s, p, file, now);
    case ToRename => WriteOwnerRename(s, p, file, now);
    case ToSync => WriteOwnerSync(s, p, file, now);
  }

  lemma WriteReleaseCreate(s: State, p: nat, file: FileId, now: int)
    requires Inv(s) && IsAt(s, p, WriteRelease(ToCreate)) && file !in s.disk.inodes
    ensures Inv(WriteReleaseStep(s, p, s.procs[p], s.procs[p].claim.value, file, now, ToCreate))
  {
    var q := s.procs[p];
    var claim := q.claim.value;
    Holder(s, p, q.pc);
    CreateTempView(s, p, q.pc, Own(q, claim, OwnerFile), file, q.umask);
    CreateTempKeeps(s, p, q.pc, q.(pc := WriteRelease(ToProtect), tempFile := file), OwnerFile, file);
  }

  lemma WriteReleaseProtect(s: State, p: nat, file: FileId, now: int)
    requires Inv(s) && IsAt(s, p, WriteRelease(ToProtect))
    ensures Inv(WriteReleaseStep(s, p, s.procs[p], s.procs[p].claim.value, file, now, ToProtect))
  {
    var q := s.procs[p];
    Holder(s, p, q.pc);
    ProtectFacts(s.root, s.used, s.disk, Own(q, q.claim.value, OwnerFile));
    MoveKeeps(s, p, q.pc, WriteRelease(ToWrite));
  }

  lemma ReleaseWritten(s: State, p: nat, now: int)
    requires Inv(s) && IsAt(s, p, WriteRelease(ToWrite)) && s.procs[p].claim.Some?
    ensures var q, value := s.procs[p], OwnerJson(ReleasedRecord(s.root, s.procs[p], s.procs[p].claim.value, now));
            var q' := q.(pc := WriteRelease(ToRename));
            WindowOk(Put(s.(disk := WriteAndSync(s.disk, q.tempFile, value)), p, q'), q')
  {
    var q := s.procs[p];
    Holder(s, p, q.pc);
    var value := OwnerJson(ReleasedRecord(s.root, q, q.claim.value, now));
    WriteFacts(s.root, s.used, s.disk, q.tempFile, value);
  }

  lemma WriteReleaseWrite(s: State, p: nat, file: FileId, now: int)
    requires Inv(s) && IsAt(s, p, WriteRelease(ToWrite))
    ensures Inv(WriteReleaseStep(s, p, s.procs[p], s.procs[p].claim.value, file, now, ToWrite))
  {
    var q := s.procs[p];
    Holder(s, p, q.pc);
    var value := OwnerJson(ReleasedRecord(s.root, q, q.claim.value, now));
    WriteFacts(s.root, s.used, s.disk, q.tempFile, value);
    var q' := q.(pc := WriteRelease(ToRename));
    ReleaseWritten(s, p, now);
    DiskStep(s, p, q.pc, WriteAndSync(s.disk, q.tempFile, value), q');
  }

  lemma ReleaseRenamed(s: State, p: nat)
    requires Inv(s) && IsAt(s, p, WriteRelease(ToRename))
    ensures var q := s.procs[p];
            var claim := q.claim.value;
            var op := Rename(Own(q, claim, OwnerFile), RecordName(OwnerFile), [ReleasedBy(claim.incarnation)]);
            var disk := Append(s.disk, op);
            && CrashSafe(s.root, s.used, disk) && Carries(s.disk, disk)
            && Live(disk) == Apply(Live(s.disk), op) && StableOn(disk) == Present(claim.stable)
            && HasReleased(Live(disk).installs, claim.incarnation)
            && Own(q, claim, OwnerFile) in Names(s)
  {
    var q := s.procs[p];
    var claim := q.claim.value;
    Holder(s, p, q.pc);
    var temp, install := Own(q, claim, OwnerFile), ReleasedBy(claim.incarnation);
    InstallReleased(Live(s.disk).installs, claim.incarnation);
    RenameOwnerFacts(s.root, s.used, s.disk, temp, ReleasedRecord(s.root, q, claim, ReleaseTime(s, q)), install);
  }

  lemma WriteReleaseRename(s: State, p: nat, file: FileId, now: int)
    requires Inv(s) && IsAt(s, p, WriteRelease(ToRename))
    ensures Inv(WriteReleaseStep(s, p, s.procs[p], s.procs[p].claim.value, file, now, ToRename))
  {
    var q := s.procs[p];
    Holder(s, p, q.pc);
    ReleaseRenamed(s, p);
    var op := Rename(Own(q, q.claim.value, OwnerFile), RecordName(OwnerFile), [ReleasedBy(q.claim.value.incarnation)]);
    DiskStep(s, p, q.pc, Append(s.disk, op), q.(pc := WriteRelease(ToSync)));
  }

  lemma WriteReleaseSync(s: State, p: nat, file: FileId, now: int)
    requires Inv(s) && IsAt(s, p, WriteRelease(ToSync))
    ensures Inv(WriteReleaseStep(s, p, s.procs[p], s.procs[p].claim.value, file, now, ToSync))
  {
    var q := s.procs[p];
    Holder(s, p, q.pc);
    SyncFacts(s.root, s.used, s.disk);
    var q' := q.(pc := Closing(CleanRelease));
    HolderConclude(s, Put(s.(disk := SyncDirectory(s.disk)), p, q'), p, q');
  }

  lemma WriteReleaseKeeps(s: State, p: nat, file: FileId, now: int, phase: WritePhase)
    requires Inv(s) && IsAt(s, p, WriteRelease(phase)) && file !in s.disk.inodes
    ensures Inv(WriteReleaseStep(s, p, s.procs[p], s.procs[p].claim.value, file, now, phase))
  {
    match phase
    case ToCreate => WriteReleaseCreate(s, p, file, now);
    case ToProtect => WriteReleaseProtect(s, p, file, now);
    case ToWrite => WriteReleaseWrite(s, p, file, now);
    case ToRename => WriteReleaseRename(s, p, file, now);
    case ToSync => WriteReleaseSync(s, p, file, now);
  }

  /* ------------------------- announcing and ending ---------------------- */

  lemma LogKeeps(s: State, markers: seq<Marker>)
    requires Inv(s) && forall marker | marker in markers :: Supported(s.disk, marker)
    ensures Inv(s.(log := s.log + markers))
  {
    OthersSameLog(s, s.(log := s.log + markers));
  }

  lemma OthersSameLog(s: State, t: State)
    requires Inv(s) && t == s.(log := t.log)
    ensures LocksOk(t) && ProcsOk(t)
  {
    forall r | r in t.procs
      ensures StaticOk(t, r, t.procs[r]) && (t.procs[r].locked ==> WindowOk(t, t.procs[r]))
    {
      assert StaticOk(s, r, s.procs[r]);
      if s.procs[r].locked {
        SameViewWindow(s, t, s.procs[r]);
      }
    }
  }

  lemma AnnounceKeeps(s: State, p: nat, a: Action)
    requires Inv(s) && p in s.procs && s.procs[p].claim.Some? && a.Advance?
    requires s.procs[p].pc == AnnounceRecovered || s.procs[p].pc == AnnounceAcquired
    ensures Inv(ClaimStep(s, p, s.procs[p], a))
  {
    var q := s.procs[p];
    var claim := q.claim.value;
    Holder(s, p, q.pc);
    var marker, pc :=
      if q.pc == AnnounceRecovered
      then RecoveredMarker(claim.stable.controlPlaneId, claim.recoveredFrom.value, claim.incarnation)
      else AcquiredMarker(claim.stable.controlPlaneId, claim.incarnation),
      if q.pc == AnnounceRecovered then AnnounceAcquired else Running;
    assert marker in Earned(q);
    assert forall m | m in Earned(q.(pc := pc)) :: m in Earned(q);
    MoveKeeps(s, p, q.pc, pc);
    LogKeeps(Put(s, p, q.(pc := pc)), [marker]);
  }

  lemma CheckReleaseKeeps(s: State, p: nat)
    requires Inv(s) && IsAt(s, p, CheckRelease)
    ensures Inv(Put(s, p, s.procs[p].(pc := WriteRelease(ToCreate))))
  {
    Holder(s, p, CheckRelease);
    MoveKeeps(s, p, CheckRelease, WriteRelease(ToCreate));
  }

  lemma CloseLocks(s: State, p: nat, q: Process, ending: Ending)
    requires Inv(s) && p in s.procs && s.procs[p].pc.Closing? && q == s.procs[p].(poisoned := q.poisoned)
    ensures LocksOk(CloseStep(s, p, q, ending))
    ensures forall file | file in s.locks && s.locks[file] != p ::
      file in CloseStep(s, p, q, ending).locks && CloseStep(s, p, q, ending).locks[file] == s.locks[file]
  {
    assert StaticOk(s, p, s.procs[p]);
  }

  function Closed(q: Process, ending: Ending): Process {
    q.(locked := false, pc := if ending == MarkerLost then Ended else Announcing(ending))
  }

  lemma ClosedStatic(s: State, t: State, p: nat, q: Process, ending: Ending)
    requires StaticOk(s, p, q) && q.pc.Closing? && !BadEnding(ending)
    requires ending == CleanRelease ==> q.pc.ending == CleanRelease
    requires t.root == s.root && t.used == s.used && t.disk == s.disk
    ensures StaticOk(t, p, Closed(q, ending))
    ensures Earned(Closed(q, ending)) <= Earned(q)
  {
    var q' := Closed(q, ending);
    assert !KnowsLock(q') && !NeedsLock(q'.pc) && !q'.locked;
    assert q'.claim == q.claim;
  }

  lemma CloseKeeps(s: State, p: nat, q: Process, ending: Ending)
    requires Inv(s) && p in s.procs && s.procs[p].pc.Closing? && !BadEnding(ending)
    requires q == s.procs[p].(poisoned := q.poisoned)
    requires ending == CleanRelease ==> s.procs[p].pc.ending == CleanRelease
    ensures Inv(CloseStep(s, p, q, ending))
  {
    var t := CloseStep(s, p, q, ending);
    assert StaticOk(s, p, s.procs[p]);
    assert Earned(q) == Earned(s.procs[p]);
    ClosedStatic(s, t, p, q, ending);
    CloseLocks(s, p, q, ending);
    QuietConclude(s, t, p, Closed(q, ending));
  }

  lemma EndMarkerSupported(s: State, p: nat, ending: Ending)
    requires Inv(s) && p in s.procs && s.procs[p].pc == Announcing(ending)
    ensures forall marker | marker in EndMarker(s.procs[p], ending) :: Supported(s.disk, marker)
  {
    assert StaticOk(s, p, s.procs[p]);
    forall marker | marker in EndMarker(s.procs[p], ending)
      ensures Supported(s.disk, marker)
    {
      if ending == CleanRelease {
        assert marker in Earned(s.procs[p]);
      }
    }
  }

  lemma AnnouncingKeeps(s: State, p: nat, ending: Ending)
    requires Inv(s) && p in s.procs && s.procs[p].pc == Announcing(ending)
    ensures Inv(Put(s.(log := s.log + EndMarker(s.procs[p], ending)), p, s.procs[p].(pc := Ended)))
  {
    EndMarkerSupported(s, p, ending);
    AfterwardsKeeps(s, p);
    LogKeeps(Put(s, p, s.procs[p].(pc := Ended)), EndMarker(s.procs[p], ending));
  }

  lemma ClaimStepKeeps(s: State, p: nat, a: Action)
    requires Inv(s) && p in s.procs && s.procs[p].claim.Some? && a.Advance? && Enabled(s, a) && a.proc == p
    ensures Inv(ClaimStep(s, p, s.procs[p], a))
  {
    match s.procs[p].pc
    case RemoveTemps => RemoveTempsKeeps(s, p, a.leftover);
    case WriteStable(phase) => WriteStableKeeps(s, p, a.file, phase);
    case WriteOwner(phase) => WriteOwnerKeeps(s, p, a.file, a.now, phase);
    case AnnounceRecovered => AnnounceKeeps(s, p, a);
    case AnnounceAcquired => AnnounceKeeps(s, p, a);
    case CheckRelease => CheckReleaseKeeps(s, p);
    case WriteRelease(phase) => WriteReleaseKeeps(s, p, a.file, a.now, phase);
    case _ =>
  }

  lemma BeforeHoldingKeeps(s: State, p: nat, file: FileId)
    requires Inv(s) && p in s.procs && file !in s.disk.inodes
    ensures s.procs[p].pc == OpenLock ==> Inv(OpenLockStep(s, p, s.procs[p], file))
    ensures s.procs[p].pc == CheckLock ==> Inv(CheckLockStep(s, p, s.procs[p]))
    ensures s.procs[p].pc == TakeLock ==> Inv(TakeLockStep(s, p, s.procs[p]))
  {
    if s.procs[p].pc == OpenLock {
      if LockName in Names(s) { OpenExistingLockKeeps(s, p, file); } else { CreateLockKeeps(s, p, file); }
    } else if s.procs[p].pc == CheckLock {
      CheckLockKeeps(s, p);
    } else if s.procs[p].pc == TakeLock {
      TakeLockKeeps(s, p);
    }
  }

  lemma AdvanceKeeps(s: State, a: Action)
    requires Inv(s) && a.Advance? && Enabled(s, a)
    ensures Inv(Next(s, a))
  {
    var p := a.proc;
    var pc := s.procs[p].pc;
    if pc == OpenLock || pc == CheckLock || pc == TakeLock {
      BeforeHoldingKeeps(s, p, a.file);
    } else if pc == ProtectLock {
      ProtectLockKeeps(s, p);
    } else if pc == Inventory {
      InventoryKeeps(s, p);
    } else if pc == ReadRecords {
      ReadRecordsKeeps(s, p, a.incarnation, a.controlPlaneId);
    } else if pc.Closing? {
      assert StaticOk(s, p, s.procs[p]);
      CloseKeeps(s, p, s.procs[p], pc.ending);
    } else if pc.Announcing? {
      AnnouncingKeeps(s, p, pc.ending);
    } else if !pc.Running? && !pc.Ended? && s.procs[p].claim.Some? {
      ClaimStepKeeps(s, p, a);
    }
  }

  lemma FaultWhileReleasing(s: State, p: nat)
    requires Inv(s) && p in s.procs && Releasing(s.procs[p].pc)
    ensures Inv(End(s, p, s.procs[p].(poisoned := true), UncleanRelease))
  {
    assert StaticOk(s, p, s.procs[p]);
    EndKeeps(s, p, s.procs[p].(poisoned := true), UncleanRelease);
  }

  lemma FaultWhileClosing(s: State, p: nat, transport: bool)
    requires Inv(s) && p in s.procs && s.procs[p].pc.Closing?
    ensures Inv(FaultStep(s, p, s.procs[p], transport))
  {
    var q := s.procs[p];
    assert StaticOk(s, p, q);
    if q.pc.ending == CleanRelease {
      CloseKeeps(s, p, q.(poisoned := true), UncleanRelease);
    } else {
      CloseKeeps(s, p, q, q.pc.ending);
    }
  }

  lemma AfterwardsKeeps(s: State, p: nat)
    requires Inv(s) && p in s.procs && s.procs[p].pc.Announcing?
    ensures Inv(Put(s, p, s.procs[p].(pc := Ended)))
  {
    var q' := s.procs[p].(pc := Ended);
    assert StaticOk(s, p, s.procs[p]);
    assert !q'.locked && Earned(q') == {};
    QuietConclude(s, Put(s, p, q'), p, q');
  }

  lemma FaultWhileAcquiring(s: State, p: nat, ending: Ending)
    requires Inv(s) && p in s.procs && (ending == MarkerLost || ending == Refused(EnvironmentFault))
    ensures Inv(End(s, p, s.procs[p], ending))
  {
    assert StaticOk(s, p, s.procs[p]);
    EndKeeps(s, p, s.procs[p], ending);
  }

  lemma FaultKeeps(s: State, p: nat, transport: bool)
    requires Inv(s) && p in s.procs
    ensures Inv(FaultStep(s, p, s.procs[p], transport))
  {
    var q := s.procs[p];
    if q.pc.Running? || q.pc.Ended? {
    } else if q.pc.Announcing? {
      AfterwardsKeeps(s, p);
    } else if q.pc.Closing? {
      FaultWhileClosing(s, p, transport);
    } else if Releasing(q.pc) {
      FaultWhileReleasing(s, p);
    } else {
      FaultWhileAcquiring(s, p, if transport && (q.pc.AnnounceRecovered? || q.pc.AnnounceAcquired?) then MarkerLost
                                else Refused(EnvironmentFault));
    }
  }

  lemma SpawnKeeps(s: State, a: Action)
    requires Inv(s) && a.Spawn? && Enabled(s, a) && Ordinary(a)
    ensures Inv(Next(s, a))
  {
    var t := Next(s, a);
    var q := t.procs[a.proc];
    forall r | r in t.procs && r != a.proc
      ensures StaticOk(t, r, t.procs[r]) && (t.procs[r].locked ==> WindowOk(t, t.procs[r]))
    {
      assert StaticOk(s, r, s.procs[r]);
      if s.procs[r].locked {
        SameViewWindow(s, t, s.procs[r]);
      }
    }
    assert StaticOk(t, a.proc, q);
    assert MarkersSupported(t);
  }

  lemma PoisonKeeps(s: State, p: nat)
    requires Inv(s) && p in s.procs && s.procs[p].pc == Running
    ensures Inv(Put(s, p, s.procs[p].(poisoned := true)))
  {
    var q' := s.procs[p].(poisoned := true);
    assert StaticOk(s, p, s.procs[p]);
    Holder(s, p, Running);
    HolderConclude(s, Put(s, p, q'), p, q');
  }

  lemma BeginReleaseKeeps(s: State, p: nat)
    requires Inv(s) && p in s.procs && s.procs[p].pc == Running
    ensures Inv(Next(s, BeginRelease(p)))
  {
    var q := s.procs[p];
    assert StaticOk(s, p, q);
    if q.poisoned {
      EndKeeps(s, p, q, UncleanRelease);
    } else {
      Holder(s, p, Running);
      MoveKeeps(s, p, Running, CheckRelease);
    }
  }

  lemma KillKeeps(s: State, p: nat)
    requires Inv(s) && p in s.procs
    ensures Inv(Next(s, Kill(p)))
  {
    var t := Next(s, Kill(p));
    assert StaticOk(s, p, s.procs[p]);
    forall r | r in t.procs
      ensures StaticOk(t, r, t.procs[r]) && (t.procs[r].locked ==> WindowOk(t, t.procs[r]))
    {
      assert StaticOk(s, r, s.procs[r]);
      if s.procs[r].locked {
        SameViewWindow(s, t, s.procs[r]);
      }
    }
    assert LocksOk(t);
    assert MarkersSupported(t);
  }

  // What every prefix already supports, whatever survives supports.
  lemma PowerLossKeeps(s: State, a: Action)
    requires Inv(s) && a.PowerLoss? && Enabled(s, a)
    ensures Inv(Next(s, a))
  {
    var t := Next(s, a);
    PowerLossCrashSafe(s.root, s.used, s.disk, a.kept, a.inodes);
    forall marker | marker in s.log
      ensures Supported(t.disk, marker)
    {
      SurvivingSupport(s, a, marker);
    }
  }

  lemma SurvivingSupport(s: State, a: Action, marker: Marker)
    requires Inv(s) && a.PowerLoss? && Enabled(s, a) && Supported(s.disk, marker)
    ensures Supported(Next(s, a).disk, marker)
  {
    var kept := At(s.disk, a.kept);
    assert Next(s, a).disk.pending[..0] == [];
    assert GoodEntry(s.root, s.disk.inodes, s.used, kept);
    QuietEntry(s.root, s.disk.inodes, a.inodes, s.used, kept);
    assert Supports(s.disk.inodes, kept, marker);
  }

  lemma NextKeeps(s: State, a: Action)
    requires Inv(s) && Enabled(s, a) && Ordinary(a)
    ensures Inv(Next(s, a))
  {
    match a
    case Spawn(_, _, _, _) => SpawnKeeps(s, a);
    case Advance(_, _, _, _, _, _) => AdvanceKeeps(s, a);
    case Fault(p, transport) => FaultKeeps(s, p, transport);
    case Poison(p) => PoisonKeeps(s, p);
    case BeginRelease(p) => BeginReleaseKeeps(s, p);
    case Kill(p) => KillKeeps(s, p);
    case PowerLoss(_, _) => PowerLossKeeps(s, a);
  }

  lemma {:induction false} RunKeeps(start: State, actions: seq<Action>, s: State)
    requires Inv(start) && (forall a | a in actions :: Ordinary(a)) && Run(start, actions) == Some(s)
    ensures Inv(s)
  {
    if actions != [] {
      var before := Run(start, actions[..|actions| - 1]);
      RunKeeps(start, actions[..|actions| - 1], before.value);
      NextKeeps(before.value, actions[|actions| - 1]);
    }
  }

  lemma ReachableInv(s: State)
    requires Reachable(s)
    ensures Inv(s)
  {
    var start: State, actions: seq<Action> :|
      Initial(start) && (forall a | a in actions :: Ordinary(a)) && Run(start, actions) == Some(s);
    InitialInv(start);
    RunKeeps(start, actions, s);
  }
}
