// Control-plane ownership as a state machine: any number of processes contend
// for one entry directory, one file-system call at a time, and a process may be
// killed, or the machine lose power, between any two calls.
module OwnershipProtocol {
  import opened Prelude
  import opened ControlPlaneNames
  import opened ControlPlaneDisk

  // The next call of one atomic record write.
  datatype WritePhase = ToCreate | ToProtect | ToWrite | ToRename | ToSync

  datatype Evidence =
    | LockNotProtected
    | BadInventory
    | UnreadableRecord(failure: ReadFailure)
    | OwnerWithoutStable
    | StableMismatch
    | OwnerMismatch
    | TempTaken
    | TempMissing

  datatype Refusal = BadEvidence(evidence: Evidence) | EnvironmentFault

  // How a process stops holding resources, and what it then announces.
  datatype Ending =
    | Conflict
    | Refused(reason: Refusal)
    | MarkerLost
    | CleanRelease
    | UncleanRelease

  datatype Pc =
    | OpenLock | ProtectLock | CheckLock | TakeLock
    | Inventory | ReadRecords | RemoveTemps
    | WriteStable(phase: WritePhase)
    | WriteOwner(phase: WritePhase)
    | AnnounceRecovered | AnnounceAcquired
    | Running | CheckRelease
    | WriteRelease(phase: WritePhase)
    | Closing(ending: Ending)
    | Announcing(ending: Ending)
    | Ended

  // What an acquisition settles on once it has read both records.
  datatype Claim = Claim(
    incarnation: string,
    stable: StableRecord,
    stableAbsent: bool,
    recoveredFrom: Option<string>,
    acquiredAt: int)

  datatype Process = Process(
    pid: nat,
    hostname: string,
    umask: Mode,
    pc: Pc,
    lockFile: FileId,
    locked: bool,
    temps: set<Name>,
    claim: Option<Claim>,
    tempFile: FileId,
    poisoned: bool)

  datatype Marker =
    | AcquiredMarker(controlPlaneId: string, incarnation: string)
    | RecoveredMarker(controlPlaneId: string, priorIncarnation: string, incarnation: string)
    | ReleasedMarker(controlPlaneId: string, incarnation: string)
    | UncleanMarker(controlPlaneId: string, incarnation: string)
    | ConflictMarker
    | RefusedMarker(reason: Refusal)

  datatype State = State(
    root: Root,
    disk: Disk,
    locks: map<FileId, nat>,
    procs: map<nat, Process>,
    used: set<string>,
    log: seq<Marker>)

  // One observable event. `Advance` carries the answers the environment gives:
  // the number of a new file, fresh ids, the clock, the leftover to remove next.
  datatype Action =
    | Spawn(proc: nat, pid: nat, hostname: string, umask: Mode)
    | Advance(proc: nat, file: FileId, incarnation: string, controlPlaneId: string, now: int, leftover: Name)
    | Fault(proc: nat, transport: bool)
    | Poison(proc: nat)
    | BeginRelease(proc: nat)
    | Kill(proc: nat)
    | PowerLoss(kept: nat, inodes: map<FileId, Inode>)

  function Names(s: State): map<Name, FileId> {
    Live(s.disk).names
  }

  /* ------------------------ reading the two records --------------------- */

  datatype Verdict = Refuse(evidence: Evidence) | Proceed(stable: Option<StableRecord>, recoveredFrom: Option<string>)

  // The acquisition's ruling on the records it finds under the lock.
  function Classify(root: Root, lock: FileId, stable: Reading<StableRecord>, owner: Reading<OwnerRecord>): Verdict {
    if stable == Unreadable(NotProtected) || owner == Unreadable(NotProtected)
    then Refuse(UnreadableRecord(NotProtected))
    else if stable.Unreadable? then Refuse(UnreadableRecord(stable.failure))
    else if owner.Unreadable? then Refuse(UnreadableRecord(owner.failure))
    else if stable.Absent? && owner.Present? then Refuse(OwnerWithoutStable)
    else if stable.Present? && !StableMatchesRoot(stable.record, root) then Refuse(StableMismatch)
    else if owner.Present? && stable.Present? && !RecordsMatch(stable.record, owner.record, root, lock)
    then Refuse(OwnerMismatch)
    else Proceed(
      if stable.Present? then Some(stable.record) else None,
      if owner.Present? && owner.record.state == Owned then Some(owner.record.incarnationId) else None)
  }

  function OwnedRecord(root: Root, q: Process, claim: Claim): OwnerRecord {
    OwnerRecord(2, Owned, claim.stable.controlPlaneId, claim.incarnation, q.pid, q.hostname,
                root.path, root.digest, root.workspaceInode, q.lockFile, claim.acquiredAt, None)
  }

  function ReleasedRecord(root: Root, q: Process, claim: Claim, now: int): OwnerRecord {
    OwnedRecord(root, q, claim).(state := Released, releasedAt := Some(now))
  }

  /* ------------------------------- steps -------------------------------- */

  function Put(s: State, p: nat, q: Process): State {
    s.(procs := s.procs[p := q])
  }

  function End(s: State, p: nat, q: Process, ending: Ending): State {
    Put(s, p, q.(pc := Closing(ending)))
  }

  function Stop(s: State, p: nat, q: Process, evidence: Evidence): State {
    End(s, p, q, Refused(BadEvidence(evidence)))
  }

  function Unlocked(s: State, q: Process): map<FileId, nat> {
    if q.locked then s.locks - {q.lockFile} else s.locks
  }

  function OpenLockStep(s: State, p: nat, q: Process, file: FileId): State {
    if LockName in Names(s) then Put(s, p, q.(pc := CheckLock, lockFile := Names(s)[LockName]))
    else Put(s.(disk := CreateFile(s.disk, LockName, file, q.umask)), p, q.(pc := ProtectLock, lockFile := file))
  }

  function CheckLockStep(s: State, p: nat, q: Process): State {
    if q.lockFile in s.disk.inodes && Protected(s.disk.inodes[q.lockFile]) then Put(s, p, q.(pc := TakeLock))
    else Stop(s, p, q, LockNotProtected)
  }

  function TakeLockStep(s: State, p: nat, q: Process): State {
    if q.lockFile in s.locks then End(s, p, q, Conflict)
    else Put(s.(locks := s.locks[q.lockFile := p]), p, q.(pc := Inventory, locked := true))
  }

  function InventoryStep(s: State, p: nat, q: Process): State {
    if InventoryPasses(s.disk.inodes, Names(s)) then
      Put(s, p, q.(pc := ReadRecords, temps := Temps(Names(s))))
    else Stop(s, p, q, BadInventory)
  }

  function ReadRecordsStep(s: State, p: nat, q: Process, incarnation: string, controlPlaneId: string): State {
    match Classify(s.root, q.lockFile, ReadStable(s.disk.inodes, Names(s)), ReadOwner(s.disk.inodes, Names(s)))
    case Refuse(evidence) => Stop(s, p, q, evidence)
    case Proceed(stable, recoveredFrom) =>
      var record := if stable.Some? then stable.value else StableRecord(controlPlaneId, s.root.path, s.root.digest);
      Put(s.(used := s.used + {incarnation, controlPlaneId}), p,
          q.(pc := RemoveTemps, claim := Some(Claim(incarnation, record, stable.None?, recoveredFrom, 0))))
  }

  function RemoveTempsStep(s: State, p: nat, q: Process, claim: Claim, leftover: Name): State {
    if q.temps == {} then
      Put(s, p, q.(pc := if claim.stableAbsent then WriteStable(ToCreate) else WriteOwner(ToCreate)))
    else if leftover !in Names(s) then Stop(s, p, q, TempMissing)
    else Put(s.(disk := Append(s.disk, Unlink(leftover))), p, q.(temps := q.temps - {leftover}))
  }

  // The middle of a record write, shared by the three records the program writes.
  function WriteDisk(disk: Disk, umask: Mode, file: FileId, temp: Name, destination: RecordFile, value: JsonValue,
                     installs: seq<Install>, phase: WritePhase): Disk {
    match phase
    case ToCreate => CreateFile(disk, temp, file, umask)
    case ToProtect => ProtectFile(disk, file)
    case ToWrite => WriteAndSync(disk, file, value)
    case ToRename => Append(disk, Rename(temp, RecordName(destination), installs))
    case ToSync => SyncDirectory(disk)
  }

  // The file a write works on: a new one while it is being created.
  function Target(q: Process, file: FileId, phase: WritePhase): FileId {
    if phase == ToCreate then file else q.tempFile
  }

  function NextPhase(phase: WritePhase): WritePhase {
    match phase
    case ToCreate => ToProtect
    case ToProtect => ToWrite
    case ToWrite => ToRename
    case ToRename => ToSync
    case ToSync => ToSync
  }

  function WriteStableStep(s: State, p: nat, q: Process, claim: Claim, file: FileId, phase: WritePhase): State {
    var temp := TempName(StableFile, q.pid, claim.incarnation);
    if phase == ToCreate && temp in Names(s) then Stop(s, p, q, TempTaken)
    else
      var disk := WriteDisk(s.disk, q.umask, Target(q, file, phase), temp, StableFile, StableJson(claim.stable), [],
          phase);
      Put(s.(disk := disk), p,
          q.(pc := if phase == ToSync then WriteOwner(ToCreate) else WriteStable(NextPhase(phase)),
             tempFile := Target(q, file, phase)))
  }

  function WriteOwnerStep(s: State, p: nat, q: Process, claim: Claim, file: FileId, now: int,
      phase: WritePhase): State {
    var temp := TempName(OwnerFile, q.pid, claim.incarnation);
    if phase == ToCreate && temp in Names(s) then Stop(s, p, q, TempTaken)
    else
      var disk := WriteDisk(s.disk, q.umask, Target(q, file, phase), temp, OwnerFile,
          OwnerJson(OwnedRecord(s.root, q, claim)),
                            [OwnedBy(claim.incarnation, claim.recoveredFrom)], phase);
      Put(s.(disk := disk), p,
          q.(pc := if phase != ToSync then WriteOwner(NextPhase(phase))
                   else if claim.recoveredFrom.Some? then AnnounceRecovered else AnnounceAcquired,
             claim := if phase == ToCreate then Some(claim.(acquiredAt := now)) else q.claim,
             tempFile := Target(q, file, phase)))
  }

  function WriteReleaseStep(s: State, p: nat, q: Process, claim: Claim, file: FileId, now: int,
      phase: WritePhase): State {
    var temp := TempName(OwnerFile, q.pid, claim.incarnation);
    if phase == ToCreate && temp in Names(s) then End(s, p, q.(poisoned := true), UncleanRelease)
    else
      var disk := WriteDisk(s.disk, q.umask, Target(q, file, phase), temp, OwnerFile,
          OwnerJson(ReleasedRecord(s.root, q, claim, now)),
                            [ReleasedBy(claim.incarnation)], phase);
      Put(s.(disk := disk), p,
          q.(pc := if phase == ToSync then Closing(CleanRelease) else WriteRelease(NextPhase(phase)),
             tempFile := Target(q, file, phase)))
  }

  function EndMarker(q: Process, ending: Ending): seq<Marker> {
    match ending
    case Conflict => [ConflictMarker]
    case Refused(reason) => [RefusedMarker(reason)]
    case MarkerLost => []
    case CleanRelease =>
      if q.claim.Some? then [ReleasedMarker(q.claim.value.stable.controlPlaneId, q.claim.value.incarnation)] else []
    case UncleanRelease =>
      if q.claim.Some? then [UncleanMarker(q.claim.value.stable.controlPlaneId, q.claim.value.incarnation)] else []
  }

  function CloseStep(s: State, p: nat, q: Process, ending: Ending): State {
    Put(s.(locks := Unlocked(s, q)), p,
        q.(locked := false, pc := if ending == MarkerLost then Ended else Announcing(ending)))
  }

  function ClaimStep(s: State, p: nat, q: Process, a: Action): State
    requires a.Advance? && q.claim.Some?
  {
    var claim := q.claim.value;
    match q.pc
    case RemoveTemps => RemoveTempsStep(s, p, q, claim, a.leftover)
    case WriteStable(phase) => WriteStableStep(s, p, q, claim, a.file, phase)
    case WriteOwner(phase) => WriteOwnerStep(s, p, q, claim, a.file, a.now, phase)
    case AnnounceRecovered =>
      if claim.recoveredFrom.None? then s
      else
        var marker := RecoveredMarker(claim.stable.controlPlaneId, claim.recoveredFrom.value, claim.incarnation);
        Put(s.(log := s.log + [marker]), p, q.(pc := AnnounceAcquired))
    case AnnounceAcquired =>
      Put(s.(log := s.log + [AcquiredMarker(claim.stable.controlPlaneId, claim.incarnation)]), p, q.(pc := Running))
    case CheckRelease => Put(s, p, q.(pc := WriteRelease(ToCreate)))
    case WriteRelease(phase) => WriteReleaseStep(s, p, q, claim, a.file, a.now, phase)
    case _ => s
  }

  function AdvanceStep(s: State, p: nat, q: Process, a: Action): State
    requires a.Advance?
  {
    match q.pc
    case OpenLock => OpenLockStep(s, p, q, a.file)
    case ProtectLock => Put(s.(disk := ProtectFile(s.disk, q.lockFile)), p, q.(pc := CheckLock))
    case CheckLock => CheckLockStep(s, p, q)
    case TakeLock => TakeLockStep(s, p, q)
    case Inventory => InventoryStep(s, p, q)
    case ReadRecords => ReadRecordsStep(s, p, q, a.incarnation, a.controlPlaneId)
    case Closing(ending) => CloseStep(s, p, q, ending)
    case Announcing(ending) => Put(s.(log := s.log + EndMarker(q, ending)), p, q.(pc := Ended))
    case Running => s
    case Ended => s
    case _ => if q.claim.Some? then ClaimStep(s, p, q, a) else s
  }

  predicate Releasing(pc: Pc) {
    pc.CheckRelease? || pc.WriteRelease?
  }

  // An I/O failure, a replaced path, or a marker that cannot be written.
  function FaultStep(s: State, p: nat, q: Process, transport: bool): State {
    if q.pc.Running? || q.pc.Ended? then s
    else if q.pc.Announcing? then Put(s, p, q.(pc := Ended))
    else if q.pc.Closing? then
      if q.pc.ending == CleanRelease then CloseStep(s, p, q.(poisoned := true), UncleanRelease)
      else CloseStep(s, p, q, q.pc.ending)
    else if Releasing(q.pc) then End(s, p, q.(poisoned := true), UncleanRelease)
    else
      End(s, p, q,
          if transport && (q.pc.AnnounceRecovered? || q.pc.AnnounceAcquired?) then MarkerLost
          else Refused(EnvironmentFault))
  }

  predicate Enabled(s: State, a: Action) {
    match a
    case Spawn(proc, pid, hostname, umask) => proc !in s.procs && pid > 0 && hostname != ""
    case Advance(proc, file, incarnation, controlPlaneId, now, leftover) =>
      && proc in s.procs
      && file !in s.disk.inodes
      && (s.procs[proc].pc == ReadRecords ==>
        && ValidUuid(incarnation) && incarnation !in s.used
        && ValidUuid(controlPlaneId) && controlPlaneId !in s.used && controlPlaneId != incarnation)
      && (s.procs[proc].pc == RemoveTemps && s.procs[proc].temps != {} ==> leftover in s.procs[proc].temps)
    case Fault(proc, transport) => proc in s.procs
    case Poison(proc) => proc in s.procs && s.procs[proc].pc == Running
    case BeginRelease(proc) => proc in s.procs && s.procs[proc].pc == Running
    case Kill(proc) => proc in s.procs
    case PowerLoss(kept, inodes) => kept <= |s.disk.pending| && SurvivesPowerLoss(s.disk.inodes, inodes)
  }

  function Next(s: State, a: Action): State
    requires Enabled(s, a)
  {
    match a
    case Spawn(proc, pid, hostname, umask) =>
      Put(s, proc, Process(pid, hostname, umask, OpenLock, 0, false, {}, None, 0, false))
    case Advance(proc, _, _, _, _, _) => AdvanceStep(s, proc, s.procs[proc], a)
    case Fault(proc, transport) => FaultStep(s, proc, s.procs[proc], transport)
    case Poison(proc) => Put(s, proc, s.procs[proc].(poisoned := true))
    case BeginRelease(proc) =>
      var q := s.procs[proc];
      if q.poisoned then End(s, proc, q, UncleanRelease) else Put(s, proc, q.(pc := CheckRelease))
    case Kill(proc) => s.(locks := Unlocked(s, s.procs[proc]), procs := s.procs - {proc})
    case PowerLoss(kept, inodes) =>
      s.(disk := AfterPowerLoss(s.disk, kept, inodes), locks := map[], procs := map[])
  }

  // A directory as some earlier incarnations may have left it, with no process
  // running; the empty directory among them.
  predicate Initial(s: State) {
    && s.disk.pending == [] && CrashSafe(s.root, s.used, s.disk)
    && s.locks == map[] && s.procs == map[] && s.log == []
    && s.root.path != "" && ValidDigest(s.root.digest)
  }

  // No action comes from a process whose umask denies its own owner access.
  predicate Ordinary(a: Action) {
    a.Spawn? ==> KeepsOwnerAccess(a.umask)
  }

  function Run(s: State, actions: seq<Action>): Option<State> {
    if actions == [] then Some(s)
    else
      var before := Run(s, actions[..|actions| - 1]);
      var a := actions[|actions| - 1];
      if before.Some? && Enabled(before.value, a) then Some(Next(before.value, a)) else None
  }

  ghost predicate Reachable(s: State) {
    exists start: State, actions: seq<Action> ::
      Initial(start) && (forall a | a in actions :: Ordinary(a)) && Run(start, actions) == Some(s)
  }
}
