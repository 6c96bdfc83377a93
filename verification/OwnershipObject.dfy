// The ownership object: what one process holds, from opening the lock file to
// its release, with the flags the program keeps.
module OwnershipObject {
  import opened Prelude
  import opened ControlPlaneNames
  import opened ControlPlaneDisk
  import opened OwnershipProtocol
  import opened OwnershipSafety
  import opened OwnershipSteps
  import opened OwnershipInvariant
  import opened OwnershipTheorems
  import opened OwnershipSession

  // The answers one acquisition gets: whether another process holds the lock,
  // the call that fails if any, file numbers, ids and the clock.
  datatype Environment = Environment(
    lockFree: bool,
    failAt: Option<Pc>,
    lockNumber: FileId,
    stableNumber: FileId,
    ownerNumber: FileId,
    incarnation: string,
    controlPlaneId: string,
    now: int)

  predicate FreshFiles(disk: Disk, env: Environment) {
    && env.lockNumber !in disk.inodes && env.lockNumber != env.stableNumber && env.lockNumber != env.ownerNumber
    && FreshRecordFiles(disk, env)
  }

  predicate FreshRecordFiles(disk: Disk, env: Environment) {
    env.stableNumber !in disk.inodes && env.ownerNumber !in disk.inodes && env.stableNumber != env.ownerNumber
  }

  predicate FreshUuids(used: set<string>, env: Environment) {
    && ValidUuid(env.incarnation) && env.incarnation !in used
    && ValidUuid(env.controlPlaneId) && env.controlPlaneId !in used && env.controlPlaneId != env.incarnation
  }

  function FailingPhase(failAt: Option<Pc>, stable: bool): Option<WritePhase> {
    match failAt
    case Some(WriteStable(phase)) => if stable then Some(phase) else None
    case Some(WriteOwner(phase)) => if stable then None else Some(phase)
    case _ => None
  }

  function StableWrite(pid: nat, umask: Mode, claim: Claim, file: FileId): Write {
    Write(umask, file, TempName(StableFile, pid, claim.incarnation), StableFile, StableJson(claim.stable), [])
  }

  function OwnerWrite(root: Root, q: Process, claim: Claim, file: FileId): Write {
    Write(q.umask, file, TempName(OwnerFile, q.pid, claim.incarnation), OwnerFile,
          OwnerJson(OwnedRecord(root, q, claim)), [OwnedBy(claim.incarnation, claim.recoveredFrom)])
  }

  function ReleaseOf(root: Root, q: Process, claim: Claim, file: FileId, now: int): Write {
    Write(q.umask, file, TempName(OwnerFile, q.pid, claim.incarnation), OwnerFile,
          OwnerJson(ReleasedRecord(root, q, claim, now)), [ReleasedBy(claim.incarnation)])
  }

  // The directory under the lock, once the leftovers are gone and before the
  // first record is written.
  predicate ReadyToInstall(root: Root, used: set<string>, disk: Disk, q: Process, claim: Claim) {
    && CrashSafe(root, used, disk) && KeepsOwnerAccess(q.umask) && q.pid > 0 && q.hostname != ""
    && root.path != "" && ValidDigest(root.digest)
    && ValidUuid(claim.incarnation) && claim.incarnation in used
    && StableSchema(claim.stable) && StableMatchesRoot(claim.stable, root)
    && StableOn(disk) == (if claim.stableAbsent then Absent else Present(claim.stable))
    && claim.recoveredFrom == Unreleased(Live(disk).installs) && !HasInstalled(Live(disk).installs, claim.incarnation)
    && LockName in Live(disk).names && Live(disk).names[LockName] == q.lockFile
    && (forall file :: TempName(file, q.pid, claim.incarnation) !in Live(disk).names)
  }

  // What an acquisition that succeeds has made durable.
  predicate Installed(before: Entry, after: Disk, claim: Claim) {
    && after.pending == []
    && StableOn(after) == Present(claim.stable)
    && Live(after).installs == before.installs + [OwnedBy(claim.incarnation, claim.recoveredFrom)]
    && Temps(Live(after).names) == Temps(before.names)
    && (LockName in before.names ==>
      LockName in Live(after).names && Live(after).names[LockName] == before.names[LockName])
  }

  // The owner record a reader finds.
  predicate OwnerIs(disk: Disk, record: OwnerRecord) {
    ReadOwner(disk.inodes, Live(disk).names) == Present(record)
  }

  // A directory whose last installation is the process's own, as the process
  // holds it from its acquisition to its release.
  predicate Holding(root: Root, used: set<string>, disk: Disk, q: Process, claim: Claim) {
    && CrashSafe(root, used, disk) && KeepsOwnerAccess(q.umask) && q.pid > 0 && q.hostname != ""
    && root.path != "" && ValidDigest(root.digest)
    && ValidUuid(claim.incarnation) && claim.incarnation in used
    && StableOn(disk) == Present(claim.stable) && StableMatchesRoot(claim.stable, root)
    && Unreleased(Live(disk).installs) == Some(claim.incarnation)
    && LockName in Live(disk).names && Live(disk).names[LockName] == q.lockFile
    && TempName(OwnerFile, q.pid, claim.incarnation) !in Live(disk).names
  }

  lemma InstallStable(root: Root, used: set<string>, disk: Disk, q: Process, claim: Claim, file: FileId,
      phase: WritePhase)
    requires ReadyToInstall(root, used, disk, q, claim) && claim.stableAbsent && file !in disk.inodes
    ensures var w := StableWrite(q.pid, q.umask, claim, file);
            && CrashSafe(root, used, Before(disk, w, phase))
            && Written(disk, w).inodes.Keys == disk.inodes.Keys + {file}
            && Live(Written(disk, w)).installs == Live(disk).installs
            && Temps(Live(Written(disk, w)).names) == Temps(Live(disk).names)
            && ReadyToInstall(root, used, Written(disk, w), q, claim.(stableAbsent := false))
  {
    var w := StableWrite(q.pid, q.umask, claim, file);
    StableWritten(root, used, disk, w, claim.stable, phase);
  }

  lemma InstallOwner(root: Root, used: set<string>, disk: Disk, q: Process, claim: Claim, file: FileId,
      phase: WritePhase)
    requires ReadyToInstall(root, used, disk, q, claim) && !claim.stableAbsent && file !in disk.inodes
    ensures var w := OwnerWrite(root, q, claim, file);
            && CrashSafe(root, used, Before(disk, w, phase)) && CrashSafe(root, used, Written(disk, w))
            && Installed(Live(disk), Written(disk, w), claim)
            && OwnerIs(Written(disk, w), OwnedRecord(root, q, claim))
  {
    var w := OwnerWrite(root, q, claim, file);
    assert GoodEntry(root, disk.inodes, used, At(disk, |disk.pending|));
    InstallOwned(Live(disk).installs, claim.incarnation, claim.recoveredFrom);
    OwnerWritten(root, used, disk, w, OwnedRecord(root, q, claim), OwnedBy(claim.incarnation, claim.recoveredFrom),
        phase);
    OwnerReads(disk, w, OwnedRecord(root, q, claim));
  }

  // Writes the stable record if there is none, then the owner record.
  method InstallRecords(directory: BoundDirectory, root: Root, q: Process, claim: Claim, env: Environment,
      ghost used: set<string>)
      returns (ok: bool, final: Claim)
    requires FreshRecordFiles(directory.disk, env)
    modifies directory`disk
    ensures final == claim.(acquiredAt := env.now)
    ensures ReadyToInstall(root, used, old(directory.disk), q, claim) ==>
      && CrashSafe(root, used, directory.disk)
      && (ok <==> env.failAt.None? || (!env.failAt.value.WriteOwner?
                                       && (env.failAt.value.WriteStable? ==> !claim.stableAbsent)))
      && (ok ==> Installed(Live(old(directory.disk)), directory.disk, final)
                 && OwnerIs(directory.disk, OwnedRecord(root, q, final)))
  {
    ghost var ready := ReadyToInstall(root, used, directory.disk, q, claim);
    ghost var start := directory.disk;
    final := claim.(acquiredAt := env.now);
    if claim.stableAbsent {
      var failAt := FailingPhase(env.failAt, true);
      if ready {
          InstallStable(root, used, directory.disk, q, claim, env.stableNumber,
                        if failAt.Some? then failAt.value else ToSync);
      }
      ok := AtomicWriteJson(directory, StableWrite(q.pid, q.umask, claim, env.stableNumber), failAt);
      if !ok { return; }
    }
    ghost var ready' := ReadyToInstall(root, used, directory.disk, q, final.(stableAbsent := false));
    assert ready ==> ready' && env.ownerNumber !in directory.disk.inodes;
    var failAt := FailingPhase(env.failAt, false);
    if ready {
      InstallOwner(root, used, directory.disk, q, final.(stableAbsent := false), env.ownerNumber,
                   if failAt.Some? then failAt.value else ToSync);
    }
    ok := AtomicWriteJson(directory, OwnerWrite(root, q, final, env.ownerNumber), failAt);
  }

  datatype Held = StillHeld | AlreadyReleased | PoisonedNow

  datatype Inspection = Bad(reason: Refusal) | Clear(claim: Claim, temps: seq<Name>)

  // Nothing changed but a lock file created where there was none.
  predicate OnlyLockAdded(before: Entry, after: Entry, file: FileId) {
    after == before || (LockName !in before.names && after == before.(names := before.names[LockName := file]))
  }

  // What a successful acquisition made of the directory it started on.
  predicate AcquiredFrom(root: Root, before: Disk, after: Disk, claim: Claim, env: Environment) {
    && claim.incarnation == env.incarnation
    && claim.recoveredFrom == Unreleased(Live(before).installs)
    && claim.stable == (if StableOn(before).Present? then StableOn(before).record
                        else StableRecord(env.controlPlaneId, root.path, root.digest))
    && after.pending == [] && StableOn(after) == Present(claim.stable)
    && Live(after).installs == Live(before).installs + [OwnedBy(env.incarnation, claim.recoveredFrom)]
    && Temps(Live(after).names) == {}
  }

  // The directory of an acquisition is the acquirer's until its release.
  lemma InstalledIsHeld(root: Root, used: set<string>, before: Disk, after: Disk, q: Process, claim: Claim)
    requires ReadyToInstall(root, used, before, q, claim) && Installed(Live(before), after, claim)
    requires CrashSafe(root, used, after)
    ensures Holding(root, used, after, q, claim)
  {
    var temp := TempName(OwnerFile, q.pid, claim.incarnation);
    assert temp in Live(after).names ==> temp in Temps(Live(after).names);
    assert temp in Temps(Live(before).names) ==> temp in Live(before).names;
  }

  // What a release leaves: its whole write, the calls of it that went through,
  // or nothing.
  function AfterRelease(disk: Disk, w: Write, permitted: bool, failAt: Option<WritePhase>): Disk {
    if !permitted || w.temp in Live(disk).names then disk
    else if failAt.None? then Written(disk, w)
    else Before(disk, w, failAt.value)
  }

  // A directory the next acquisition accepts, and whom it recovers from.
  predicate LeftBehind(root: Root, used: set<string>, disk: Disk, incarnation: string, renamed: bool) {
    CrashSafe(root, used, disk) && Unreleased(Live(disk).installs) == if renamed then None else Some(incarnation)
  }

  lemma ReleaseLeaves(root: Root, used: set<string>, disk: Disk, q: Process, claim: Claim, file: FileId, now: int,
                      permitted: bool, failAt: Option<WritePhase>)
    requires Holding(root, used, disk, q, claim) && file !in disk.inodes
    ensures LeftBehind(root, used, AfterRelease(disk, ReleaseOf(root, q, claim, file, now), permitted, failAt),
                       claim.incarnation, permitted && failAt in {None, Some(ToSync)})
    ensures permitted && failAt.None? ==>
      OwnerIs(AfterRelease(disk, ReleaseOf(root, q, claim, file, now), permitted, failAt),
              OwnerRecord(2, Released, claim.stable.controlPlaneId, claim.incarnation, q.pid, q.hostname, root.path,
                          root.digest, root.workspaceInode, q.lockFile, claim.acquiredAt, Some(now)))
  {
    if permitted && failAt.None? {
      OwnerReads(disk, ReleaseOf(root, q, claim, file, now), ReleasedRecord(root, q, claim, now));
    }
    ReleaseCutOff(root, used, disk, q, claim, file, now, if failAt.Some? then failAt.value else ToSync);
  }

  class ControlPlaneOwnership {
    const directory: BoundDirectory
    const base: BoundDirectory
    const root: Root
    const pid: nat
    const hostname: string
    const umask: Mode
    var lockFile: Option<FileId>
    var locked: bool
    var lockClosed: bool
    var claim: Option<Claim>
    var poisoned: bool
    var released: bool
    var log: seq<Marker>

    constructor (directory: BoundDirectory, base: BoundDirectory, root: Root, pid: nat, hostname: string, umask: Mode)
      requires !directory.closed && !base.closed && directory != base
      ensures this.directory == directory && this.base == base && this.root == root && this.umask == umask
      ensures this.pid == pid && this.hostname == hostname
      ensures Untouched() && log == [] && directory.disk == old(directory.disk)
    {
      this.directory, this.base, this.root, this.pid, this.hostname, this.umask :=
        directory, base, root, pid, hostname, umask;
      lockFile, locked, lockClosed, claim, poisoned, released, log := None, false, false, None, false, false, [];
    }

    predicate Untouched()
      reads this, directory, base
    {
      && lockFile.None? && !locked && !lockClosed && claim.None? && !poisoned && !released
      && !directory.closed && !base.closed && directory != base
    }

    // Holding the lock means holding every descriptor; a release gives all up.
    predicate Valid()
      reads this, directory, base
    {
      && directory != base
      && (locked ==> lockFile.Some? && !lockClosed && !directory.closed && !base.closed)
      && (released ==> !locked)
      && (lockClosed ==> lockFile.Some?)
    }

    function AsProcess(): Process
      reads this
    {
      var lock := if lockFile.Some? then lockFile.value else 0;
      Process(pid, hostname, umask, Running, lock, locked, {}, claim, 0, poisoned)
    }

    // Gives up the lock, its descriptor and both directories, each at most once
    // however often and in whatever order failures come; reports the failures.
    method CloseResources(unlockFails: bool, closeFails: bool, directoryFails: bool, baseFails: bool)
        returns (failures: nat)
      requires Valid()
      modifies this`locked, this`lockClosed, directory`closed, base`closed
      ensures Valid() && !locked && directory.closed && base.closed && (lockFile.Some? ==> lockClosed)
      ensures failures == (if old(locked) && unlockFails then 1 else 0)
                          + (if lockFile.Some? && !old(lockClosed) && closeFails then 1 else 0)
                          + (if !old(directory.closed) && directoryFails then 1 else 0)
                          + (if !old(base.closed) && baseFails then 1 else 0)
    {
      failures := 0;
      if locked {
        locked := false;
        if unlockFails { failures := failures + 1; }
      }
      if lockFile.Some? && !lockClosed {
        lockClosed := true;
        if closeFails { failures := failures + 1; }
      }
      var attempted := directory.Close();
      if attempted && directoryFails { failures := failures + 1; }
      attempted := base.Close();
      if attempted && baseFails { failures := failures + 1; }
    }

    // Whatever cleanup reports, the refusal stands and its marker is emitted.
    method Refuse(ending: Ending, closing: bool)
      requires Valid()
      requires ending.Conflict? || ending.Refused? || ending.MarkerLost?
      modifies this`locked, this`lockClosed, this`log, directory`closed, base`closed
      ensures Valid() && !locked && directory.closed && base.closed && (lockFile.Some? ==> lockClosed)
      ensures ending.Conflict? ==> log == old(log) + [ConflictMarker]
      ensures ending.Refused? ==> log == old(log) + [RefusedMarker(ending.reason)]
      ensures ending.MarkerLost? ==> log == old(log)
    {
      var failures := CloseResources(closing, closing, closing, closing);
      match ending
      case Conflict => log := log + [ConflictMarker];
      case Refused(reason) => log := log + [RefusedMarker(reason)];
      case _ =>
    }

    // Poisons the ownership as soon as one identity check fails, and says so
    // from then on.
    method AssertHeld(identitiesMatch: bool) returns (held: Held)
      requires Valid()
      modifies this`poisoned
      ensures Valid()
      ensures held == StillHeld <==> !released && !old(poisoned) && identitiesMatch
      ensures held == AlreadyReleased <==> released
      ensures poisoned == (old(poisoned) || (!released && !identitiesMatch))
    {
      if released { return AlreadyReleased; }
      if poisoned { return PoisonedNow; }
      if !identitiesMatch {
        poisoned := true;
        return PoisonedNow;
      }
      held := StillHeld;
    }

    function ReleaseWrite(file: FileId, now: int): Write
      requires claim.Some?
      reads this
    {
      ReleaseOf(root, AsProcess(), claim.value, file, now)
    }

    function ReleaseName(): Name
      requires claim.Some?
      reads this
    {
      TempName(OwnerFile, pid, claim.value.incarnation)
    }

    // The released record a reader finds is this process's own, with the times
    // of its acquisition and its release.
    predicate NamesRelease(now: int)
      requires claim.Some? && lockFile.Some?
      reads this, directory
    {
      OwnerIs(directory.disk,
              OwnerRecord(2, Released, claim.value.stable.controlPlaneId, claim.value.incarnation, pid, hostname,
                          root.path, root.digest, root.workspaceInode, lockFile.value, claim.value.acquiredAt,
                          Some(now)))
    }

    predicate HoldsDirectory(used: set<string>, file: FileId)
      reads this, directory
    {
      && !released && claim.Some? && file !in directory.disk.inodes
      && Holding(root, used, directory.disk, AsProcess(), claim.value)
    }

    // Writes the released record if the ownership still stands. What it leaves
    // of a directory it held is again crash safe, and names it as the one to
    // recover from exactly unless the write got past the rename.
    method WriteReleased(identitiesMatch: bool, file: FileId, now: int, failAt: Option<WritePhase>,
                         ghost used: set<string>)
        returns (written: bool)
      requires Valid() && claim.Some? && !released
      modifies this`poisoned, directory`disk
      ensures Valid()
      ensures written == (!old(poisoned) && identitiesMatch && failAt.None?
                          && ReleaseName() !in Live(old(directory.disk)).names)
      ensures poisoned == !written
      ensures directory.disk == AfterRelease(old(directory.disk), old(ReleaseWrite(file, now)),
                                             !old(poisoned) && identitiesMatch, failAt)
      ensures old(HoldsDirectory(used, file)) ==>
        LeftBehind(root, used, directory.disk, claim.value.incarnation,
                   !old(poisoned) && identitiesMatch && failAt in {None, Some(ToSync)})
      ensures old(HoldsDirectory(used, file)) && written && lockFile.Some? ==> NamesRelease(now)
    {
      if HoldsDirectory(used, file) {
        ReleaseLeaves(root, used, directory.disk, AsProcess(), claim.value, file, now,
                      !poisoned && identitiesMatch, failAt);
      }
      if poisoned { return false; }
      var held := AssertHeld(identitiesMatch);
      if held != StillHeld { return false; }
      written := AtomicWriteJson(directory, ReleaseWrite(file, now), failAt);
      if !written { poisoned := true; }
    }

    // Gives everything up and announces how the release went.
    method Finish(written: bool, cleanupFails: bool) returns (clean: bool)
      requires Valid() && claim.Some? && locked && !released && poisoned == !written
      modifies this`locked, this`lockClosed, this`poisoned, this`released, this`log, directory`closed, base`closed
      ensures Valid() && released && !locked && directory.closed && base.closed && lockClosed
      ensures clean == (written && !cleanupFails) && poisoned == !clean
      ensures clean ==>
        log == old(log) + [ReleasedMarker(claim.value.stable.controlPlaneId, claim.value.incarnation)]
      ensures !clean ==>
        log == old(log) + [UncleanMarker(claim.value.stable.controlPlaneId, claim.value.incarnation)]
    {
      clean := written;
      var failures := CloseResources(cleanupFails, cleanupFails, cleanupFails, cleanupFails);
      released := true;
      if failures > 0 { poisoned, clean := true, false; }
      log := log + (if clean then [ReleasedMarker(claim.value.stable.controlPlaneId, claim.value.incarnation)]
                    else [UncleanMarker(claim.value.stable.controlPlaneId, claim.value.incarnation)]);
    }

    // Releases once. The released record is written only by an ownership that
    // was not poisoned and still passes its identity check; the released marker
    // follows exactly when that write and the whole cleanup succeeded.
    method Release(identitiesMatch: bool, file: FileId, now: int, failAt: Option<WritePhase>, cleanupFails: bool,
                   ghost used: set<string>)
        returns (clean: bool)
      requires Valid() && claim.Some? && (!released ==> locked)
      modifies this`locked, this`lockClosed, this`poisoned, this`released, this`log, directory, base`closed
      ensures Valid() && released && !locked
      ensures old(released) ==>
        !clean && log == old(log) && directory.disk == old(directory.disk) && poisoned == old(poisoned)
      ensures !old(released) ==>
        var permitted := !old(poisoned) && identitiesMatch;
        && clean == (permitted && failAt.None? && ReleaseName() !in Live(old(directory.disk)).names && !cleanupFails)
        && poisoned == !clean
        && directory.closed && base.closed && lockClosed
        && log == old(log) + (if clean
                              then [ReleasedMarker(claim.value.stable.controlPlaneId, claim.value.incarnation)]
                              else [UncleanMarker(claim.value.stable.controlPlaneId, claim.value.incarnation)])
        && directory.disk == AfterRelease(old(directory.disk), old(ReleaseWrite(file, now)), permitted, failAt)
      ensures old(HoldsDirectory(used, file)) ==>
        && CrashSafe(root, used, directory.disk)
        && Unreleased(Live(directory.disk).installs)
           == if !old(poisoned) && identitiesMatch && failAt in {None, Some(ToSync)} then None
              else Some(claim.value.incarnation)
      ensures old(HoldsDirectory(used, file)) && clean ==> lockFile.Some? && NamesRelease(now)
    {
      if released { return false; }
      var written := WriteReleased(identitiesMatch, file, now, failAt, used);
      clean := Finish(written, cleanupFails);
    }

    // Opens and locks the lock file, or says how the acquisition ends.
    method TakeTheLock(env: Environment, ghost used: set<string>) returns (ending: Option<Ending>)
      requires Untouched() && env.lockNumber !in directory.disk.inodes
      modifies this`lockFile, this`locked, directory`disk
      ensures Valid()
      ensures ending.None? ==> locked && LockName in Live(directory.disk).names
                               && Live(directory.disk).names[LockName] == lockFile.value
      ensures ending.Some? ==> !locked && (ending.value.Conflict? || ending.value.Refused?)
      ensures OnlyLockAdded(Live(old(directory.disk)), Live(directory.disk), env.lockNumber)
      ensures directory.disk.inodes.Keys <= old(directory.disk).inodes.Keys + {env.lockNumber}
      ensures CrashSafe(root, used, old(directory.disk)) && KeepsOwnerAccess(umask) ==>
        && CrashSafe(root, used, directory.disk) && StableOn(directory.disk) == StableOn(old(directory.disk))
        && (ending.Some? && ending.value.Refused? ==> ending.value.reason == EnvironmentFault)
        && (env.failAt.None? ==> (ending == if env.lockFree then None else Some(Conflict)))
    {
      var lock, reason := OpenPersistentFile(directory, env.lockNumber, umask, env.failAt, root, used);
      if lock.None? { return Some(Refused(reason)); }
      lockFile := lock;
      if env.failAt == Some(TakeLock) { return Some(Refused(EnvironmentFault)); }
      if !env.lockFree { return Some(Conflict); }
      locked := true;
      ending := None;
    }

    // The inventory and the ruling on the two records, without touching either.
    method Inspect(env: Environment, ghost used: set<string>) returns (found: Inspection)
      requires lockFile.Some?
      ensures var names, inodes := Live(directory.disk).names, directory.disk.inodes;
        env.failAt !in {Some(Inventory), Some(ReadRecords)} ==>
          (found.Clear? <==> InventoryPasses(inodes, names) && Acceptable(root, lockFile.value, inodes, names))
      ensures found.Bad? && found.reason.BadEvidence? ==>
        var names, inodes := Live(directory.disk).names, directory.disk.inodes;
        if found.reason.evidence == BadInventory then !InventoryPasses(inodes, names)
        else
          Classify(root, lockFile.value, ReadStable(inodes, names), ReadOwner(inodes, names))
          == Verdict.Refuse(found.reason.evidence)
      ensures found.Clear? ==>
        var names, inodes := Live(directory.disk).names, directory.disk.inodes;
        && InventoryPasses(inodes, names)
        && (forall name :: name in found.temps <==> name in Temps(names))
        && (forall i, j | 0 <= i < j < |found.temps| :: found.temps[i] != found.temps[j])
        && found.claim.incarnation == env.incarnation
        && Classify(root, lockFile.value, ReadStable(inodes, names), ReadOwner(inodes, names))
           == Proceed(if found.claim.stableAbsent then None else Some(found.claim.stable), found.claim.recoveredFrom)
        && (found.claim.stableAbsent ==> found.claim.stable == StableRecord(env.controlPlaneId, root.path, root.digest))
      ensures CrashSafe(root, used, directory.disk) && LockName in Live(directory.disk).names
              && Live(directory.disk).names[LockName] == lockFile.value ==>
        && (found.Bad? ==> found.reason == EnvironmentFault)
        && (env.failAt !in {Some(Inventory), Some(ReadRecords)} ==> found.Clear?)
    {
      ghost var clean := CrashSafe(root, used, directory.disk) && LockName in Live(directory.disk).names
                         && Live(directory.disk).names[LockName] == lockFile.value;
      if clean {
        assert GoodEntry(root, directory.disk.inodes, used, At(directory.disk, |directory.disk.pending|));
        GoodInventory(root, directory.disk.inodes, used, Live(directory.disk));
        ClassifyEntry(root, directory.disk.inodes, used, Live(directory.disk), lockFile.value);
      }
      if env.failAt == Some(Inventory) { return Bad(EnvironmentFault); }
      var temps := InventoryEntry(directory);
      if temps.None? { return Bad(BadEvidence(BadInventory)); }
      if env.failAt == Some(ReadRecords) { return Bad(EnvironmentFault); }
      var names, inodes := Live(directory.disk).names, directory.disk.inodes;
      ProceedsIff(root, lockFile.value, inodes, names);
      match Classify(root, lockFile.value, ReadStable(inodes, names), ReadOwner(inodes, names))
      case Refuse(evidence) => found := Bad(BadEvidence(evidence));
      case Proceed(stable, recoveredFrom) =>
        var record := if stable.Some? then stable.value else StableRecord(env.controlPlaneId, root.path, root.digest);
        found := Clear(Claim(env.incarnation, record, stable.None?, recoveredFrom, 0), temps.value);
    }

    function AcquireMarkers(claim: Claim): seq<Marker> {
      (if claim.recoveredFrom.Some?
       then [RecoveredMarker(claim.stable.controlPlaneId, claim.recoveredFrom.value, claim.incarnation)] else [])
      + [AcquiredMarker(claim.stable.controlPlaneId, claim.incarnation)]
    }

    // Past the ruling: removes the leftovers, installs the records, announces.
    method Settle(settled: Claim, temps: seq<Name>, env: Environment, ghost ids: set<string>)
        returns (ending: Option<Ending>)
      requires Valid() && locked && claim.None? && FreshRecordFiles(directory.disk, env)
      requires forall name :: name in temps <==> name in Temps(Live(directory.disk).names)
      requires forall i, j | 0 <= i < j < |temps| :: temps[i] != temps[j]
      modifies this`claim, this`log, directory`disk
      ensures Valid()
      ensures ending.None? ==>
        claim == Some(settled.(acquiredAt := env.now)) && log == old(log) + AcquireMarkers(settled)
      ensures ending.Some? ==> claim.None? && ending.value in {MarkerLost, Refused(EnvironmentFault)}
      ensures ending == Some(Refused(EnvironmentFault)) ==> log == old(log)
      ensures ReadyToInstall(root, ids, old(directory.disk), old(AsProcess()), settled) ==>
        && CrashSafe(root, ids, directory.disk) && (env.failAt.None? ==> ending.None?)
        && (ending.None? ==>
          Installed(Live(old(directory.disk)).(names := Live(old(directory.disk)).names - (set name | name in temps)),
                    directory.disk, settled)
          && Holding(root, ids, directory.disk, AsProcess(), claim.value)
          && OwnerIs(directory.disk, OwnedRecord(root, AsProcess(), claim.value)))
    {
      var q := AsProcess();
      ghost var start := Live(directory.disk);
      ghost var ready := ReadyToInstall(root, ids, directory.disk, q, settled);
      var removed := RemoveLeftovers(directory, temps, env.failAt == Some(RemoveTemps), root, ids);
      if !removed { return Some(Refused(EnvironmentFault)); }
      ghost var cleared := directory.disk;
      assert ready ==> ReadyToInstall(root, ids, cleared, q, settled);
      var ok, final := InstallRecords(directory, root, q, settled, env, ids);
      if !ok { return Some(Refused(EnvironmentFault)); }
      if ready { InstalledIsHeld(root, ids, cleared, directory.disk, q, settled); }
      if final.recoveredFrom.Some? {
        if env.failAt == Some(AnnounceRecovered) { return Some(MarkerLost); }
        log := log + [RecoveredMarker(final.stable.controlPlaneId, final.recoveredFrom.value, final.incarnation)];
      }
      if env.failAt == Some(AnnounceAcquired) { return Some(MarkerLost); }
      log := log + [AcquiredMarker(final.stable.controlPlaneId, final.incarnation)];
      claim := Some(final);
      ending := None;
    }

    predicate Acquirable(used: set<string>, env: Environment)
      reads directory
    {
      && CrashSafe(root, used, directory.disk) && FreshUuids(used, env)
      && KeepsOwnerAccess(umask) && pid > 0 && hostname != "" && root.path != "" && ValidDigest(root.digest)
    }

    method Attempt(env: Environment, ghost used: set<string>) returns (ending: Option<Ending>)
      requires Untouched() && FreshFiles(directory.disk, env)
      modifies this`lockFile, this`locked, this`claim, this`log, directory`disk
      ensures Valid() && (ending.None? ==> locked)
          && (ending.Some? ==> !ending.value.CleanRelease? && !ending.value.UncleanRelease?)
      ensures ending.None? ==>
        claim.Some? && claim.value.acquiredAt == env.now && log == old(log) + AcquireMarkers(claim.value)
      ensures ending.Some? ==> claim.None? && (ending.value != MarkerLost ==> log == old(log))
      ensures ending.Some? && ending.value.Refused? && ending.value.reason.BadEvidence? ==>
        OnlyLockAdded(Live(old(directory.disk)), Live(directory.disk), env.lockNumber)
      ensures old(Acquirable(used, env)) ==>
        && CrashSafe(root, used + {env.incarnation, env.controlPlaneId}, directory.disk)
        && (ending.Some? && ending.value.Refused? ==> ending.value.reason == EnvironmentFault)
        && (env.failAt.None? ==> (ending == if env.lockFree then None else Some(Conflict)))
        && (ending.None? ==>
          && AcquiredFrom(root, old(directory.disk), directory.disk, claim.value, env)
          && Holding(root, used + {env.incarnation, env.controlPlaneId}, directory.disk, AsProcess(), claim.value)
          && OwnerIs(directory.disk, OwnedRecord(root, AsProcess(), claim.value)))
    {
      ghost var ids := used + {env.incarnation, env.controlPlaneId};
      ghost var acquirable := Acquirable(used, env);
      ending := TakeTheLock(env, used);
      if acquirable { MoreUsed(root, used, ids, directory.disk); }
      if ending.Some? { return; }
      var found := Inspect(env, used);
      if found.Bad? { return Some(Refused(found.reason)); }
      if acquirable { SettledIsReady(root, used, directory.disk, AsProcess(), found.claim, env); }
      assert (set name | name in found.temps) == Temps(Live(directory.disk).names);
      ending := Settle(found.claim, found.temps, env, ids);
    }

    // One acquisition, from the lock file to the markers. It ends in ownership
    // or gives everything up and says why; it leaves the directory as it found
    // it when it refuses what it found there. On a directory that any earlier
    // history of crashes may have left, whichever call fails, what it leaves is
    // again such a directory; and it fails only when a call fails or the lock is
    // taken.
    method Acquire(env: Environment, ghost used: set<string>) returns (ending: Option<Ending>)
      requires Untouched() && FreshFiles(directory.disk, env)
      modifies this`lockFile, this`locked, this`lockClosed, this`claim, this`log, directory, base`closed
      ensures Valid() && (ending.None? <==> locked)
      ensures ending.None? ==> claim.Some? && !directory.closed && !base.closed
      ensures ending.None? && claim.value.recoveredFrom.None? ==>
        log == old(log) + [AcquiredMarker(claim.value.stable.controlPlaneId, claim.value.incarnation)]
      ensures ending.None? && claim.value.recoveredFrom.Some? ==>
        log == old(log) + [RecoveredMarker(claim.value.stable.controlPlaneId, claim.value.recoveredFrom.value,
                                           claim.value.incarnation),
                           AcquiredMarker(claim.value.stable.controlPlaneId, claim.value.incarnation)]
      ensures ending.Some? ==> claim.None? && directory.closed && base.closed
      ensures ending == Some(Conflict) ==> log == old(log) + [ConflictMarker]
      ensures ending.Some? && ending.value.Refused? ==> log == old(log) + [RefusedMarker(ending.value.reason)]
      ensures ending.Some? ==> ending.value.Conflict? || ending.value.Refused? || ending.value.MarkerLost?
      ensures ending.Some? && ending.value.Refused? && ending.value.reason.BadEvidence? ==>
        OnlyLockAdded(Live(old(directory.disk)), Live(directory.disk), env.lockNumber)
      ensures old(Acquirable(used, env)) ==>
        && CrashSafe(root, used + {env.incarnation, env.controlPlaneId}, directory.disk)
        && (ending.Some? && ending.value.Refused? ==> ending.value.reason == EnvironmentFault)
        && (env.failAt.None? ==> (ending == if env.lockFree then None else Some(Conflict)))
        && (ending.None? ==>
          && AcquiredFrom(root, old(directory.disk), directory.disk, claim.value, env)
          && Holding(root, used + {env.incarnation, env.controlPlaneId}, directory.disk, AsProcess(), claim.value)
          && OwnerIs(directory.disk,
                     OwnerRecord(2, Owned, claim.value.stable.controlPlaneId, env.incarnation, pid, hostname,
                                 root.path, root.digest, root.workspaceInode, lockFile.value, env.now, None)))
    {
      ending := Attempt(env, used);
      if ending.Some? { Refuse(ending.value, false); }
    }
  }

  // What the ruling leaves is what installing needs.
  lemma SettledIsReady(root: Root, used: set<string>, disk: Disk, q: Process, claim: Claim, env: Environment)
    requires CrashSafe(root, used, disk) && FreshUuids(used, env)
    requires KeepsOwnerAccess(q.umask) && q.pid > 0 && q.hostname != "" && root.path != "" && ValidDigest(root.digest)
    requires LockName in Live(disk).names && Live(disk).names[LockName] == q.lockFile
        && claim.incarnation == env.incarnation
    requires Classify(root, q.lockFile, StableOn(disk), ReadOwner(disk.inodes, Live(disk).names))
             == Proceed(if claim.stableAbsent then None else Some(claim.stable), claim.recoveredFrom)
    requires claim.stableAbsent ==> claim.stable == StableRecord(env.controlPlaneId, root.path, root.digest)
    ensures ReadyToInstall(root, used + {env.incarnation, env.controlPlaneId}, disk, q, claim)
  {
    assert GoodEntry(root, disk.inodes, used, At(disk, |disk.pending|));
    ClassifyEntry(root, disk.inodes, used, Live(disk), q.lockFile);
    MoreUsed(root, used, used + {env.incarnation, env.controlPlaneId}, disk);
  }

  // A release cut off at any call leaves a directory the next acquisition
  // accepts, and recovers from unless the cut came after the rename.
  lemma ReleaseCutOff(root: Root, used: set<string>, disk: Disk, q: Process, claim: Claim, file: FileId, now: int,
                      phase: WritePhase)
    requires Holding(root, used, disk, q, claim) && file !in disk.inodes
    ensures var w := ReleaseOf(root, q, claim, file, now);
            && CrashSafe(root, used, Before(disk, w, phase)) && CrashSafe(root, used, Written(disk, w))
            && Unreleased(Live(Before(disk, w, phase)).installs)
               == (if phase == ToSync then None else Some(claim.incarnation))
            && Unreleased(Live(Written(disk, w)).installs) == None
  {
    var w := ReleaseOf(root, q, claim, file, now);
    assert GoodEntry(root, disk.inodes, used, At(disk, |disk.pending|));
    InstallReleased(Live(disk).installs, claim.incarnation);
    OwnerWritten(root, used, disk, w, ReleasedRecord(root, q, claim, now), ReleasedBy(claim.incarnation), phase);
    UpToRename(root, used, disk, w, ToRename);
    if phase == ToSync {
      LiveSynced(Before(disk, w, ToSync));
    } else {
      InstallsUntilRename(root, used, disk, w, phase);
    }
  }

  lemma LiveSynced(disk: Disk)
    ensures Live(SyncDirectory(disk)) == Live(disk)
  {
    assert SyncDirectory(disk).pending[..0] == [];
  }

  lemma InstallsUntilRename(root: Root, used: set<string>, disk: Disk, w: Write, phase: WritePhase)
    requires CanWrite(root, used, disk, w) && phase != ToSync
    ensures Live(Before(disk, w, phase)).installs == Live(disk).installs
  {
    CreateFacts(root, used, disk, w.temp, w.file, w.umask);
    var created := Perform(disk, w, ToCreate);
    ProtectFacts(root, used, created, w.temp);
    WriteFacts(root, used, created, w.file, w.value);
  }
}
