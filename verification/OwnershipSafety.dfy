// What every reachable state of the ownership protocol keeps.
module OwnershipSafety {
  import opened Prelude
  import opened ControlPlaneNames
  import opened ControlPlaneDisk
  import opened OwnershipProtocol

  /* ---------------------------- the invariant --------------------------- */

  predicate NeedsLock(pc: Pc) {
    pc.Inventory? || pc.ReadRecords? || NeedsClaim(pc)
  }

  predicate NeedsClaim(pc: Pc) {
    || pc.RemoveTemps? || pc.WriteStable? || pc.WriteOwner? || pc.AnnounceRecovered? || pc.AnnounceAcquired?
    || pc.Running? || pc.CheckRelease? || pc.WriteRelease?
  }

  predicate KnowsLock(q: Process) {
    q.locked || q.pc.ProtectLock? || q.pc.CheckLock? || q.pc.TakeLock?
  }

  // A refusal that blames what is in the directory.
  predicate BadEnding(ending: Ending) {
    ending.Refused? && ending.reason.BadEvidence?
  }

  predicate ClaimOk(s: State, claim: Claim) {
    && ValidUuid(claim.incarnation) && claim.incarnation in s.used
    && StableSchema(claim.stable) && StableMatchesRoot(claim.stable, s.root)
  }

  predicate StaticOk(s: State, p: nat, q: Process) {
    && q.pid > 0 && q.hostname != "" && KeepsOwnerAccess(q.umask)
    && (KnowsLock(q) ==> LockName in Names(s) && Names(s)[LockName] == q.lockFile)
    && (q.locked ==> q.lockFile in s.locks && s.locks[q.lockFile] == p)
    && (q.locked ==> NeedsLock(q.pc) || q.pc.Closing?)
    && (NeedsLock(q.pc) ==> q.locked)
    && (NeedsClaim(q.pc) ==> q.claim.Some?)
    && (q.claim.Some? ==> ClaimOk(s, q.claim.value))
    && (q.pc.Closing? || q.pc.Announcing? ==> !BadEnding(q.pc.ending))
    && (q.pc.Closing? && q.pc.ending == CleanRelease ==> q.claim.Some?)
    && (q.pc.Announcing? && q.pc.ending == CleanRelease ==> q.claim.Some?)
  }

  function Own(q: Process, claim: Claim, file: RecordFile): Name {
    TempName(file, q.pid, claim.incarnation)
  }

  predicate NoOwnTemp(s: State, q: Process, claim: Claim, file: RecordFile) {
    Own(q, claim, file) !in Names(s)
  }

  // The stage of one record write, as the disk shows it.
  predicate PhaseOk(s: State, q: Process, claim: Claim, file: RecordFile, value: JsonValue, phase: WritePhase) {
    var temp := Own(q, claim, file);
    match phase
    case ToCreate => temp !in Names(s)
    case ToProtect => temp in Names(s) && Names(s)[temp] == q.tempFile
                      && q.tempFile in s.disk.inodes && !s.disk.inodes[q.tempFile].synced
    case ToWrite => temp in Names(s) && Names(s)[temp] == q.tempFile
                    && q.tempFile in s.disk.inodes && !s.disk.inodes[q.tempFile].synced
    case ToRename => temp in Names(s) && Names(s)[temp] == q.tempFile && q.tempFile in s.disk.inodes
                     && s.disk.inodes[q.tempFile].synced && s.disk.inodes[q.tempFile].content == Json(value)
    case ToSync => temp !in Names(s)
  }

  function StableNow(s: State): Reading<StableRecord> {
    ReadStable(s.disk.inodes, Names(s))
  }

  predicate BeforeInstall(s: State, claim: Claim) {
    && !HasInstalled(Live(s.disk).installs, claim.incarnation)
    && Unreleased(Live(s.disk).installs) == claim.recoveredFrom
  }

  predicate AfterInstall(s: State, claim: Claim) {
    var installs := Live(s.disk).installs;
    && StableNow(s) == Present(claim.stable)
    && installs != [] && installs[|installs| - 1] == OwnedBy(claim.incarnation, claim.recoveredFrom)
  }

  predicate WindowOk(s: State, q: Process) {
    if !NeedsClaim(q.pc) || q.claim.None? then
      q.pc.ReadRecords? ==> q.temps == Temps(Names(s))
    else
      var claim := q.claim.value;
      match q.pc
      case RemoveTemps =>
        && q.temps <= Temps(Names(s))
        && BeforeInstall(s, claim)
        && StableNow(s) == (if claim.stableAbsent then Absent else Present(claim.stable))
        && NoOwnTemp(s, q, claim, StableFile) && NoOwnTemp(s, q, claim, OwnerFile)
      case WriteStable(phase) =>
        && BeforeInstall(s, claim)
        && StableNow(s) == (if phase == ToSync then Present(claim.stable) else Absent)
        && NoOwnTemp(s, q, claim, OwnerFile)
        && PhaseOk(s, q, claim, StableFile, StableJson(claim.stable), phase)
      case WriteOwner(phase) =>
        && (if phase == ToSync then AfterInstall(s, claim)
            else BeforeInstall(s, claim) && StableNow(s) == Present(claim.stable))
        && PhaseOk(s, q, claim, OwnerFile, OwnerJson(OwnedRecord(s.root, q, claim)), phase)
      case AnnounceRecovered => claim.recoveredFrom.Some? && AfterInstall(s, claim) && NoOwnTemp(s, q, claim, OwnerFile)
      case AnnounceAcquired => AfterInstall(s, claim) && NoOwnTemp(s, q, claim, OwnerFile)
      case Running => AfterInstall(s, claim) && NoOwnTemp(s, q, claim, OwnerFile)
      case CheckRelease => AfterInstall(s, claim) && NoOwnTemp(s, q, claim, OwnerFile)
      case WriteRelease(phase) =>
        && StableNow(s) == Present(claim.stable)
        && (phase != ToSync ==> AfterInstall(s, claim))
        && (phase == ToSync ==> HasReleased(Live(s.disk).installs, claim.incarnation))
        && ReleasePhaseOk(s, q, claim, phase)
      case _ => true
  }

  // The time a written but not yet renamed release record carries.
  function ReleaseTime(s: State, q: Process): int {
    if q.tempFile !in s.disk.inodes then 0
    else match s.disk.inodes[q.tempFile].content
      case Json(OwnerJson(record)) => if record.releasedAt.Some? then record.releasedAt.value else 0
      case _ => 0
  }

  predicate ReleasePhaseOk(s: State, q: Process, claim: Claim, phase: WritePhase) {
    var value := OwnerJson(ReleasedRecord(s.root, q, claim, ReleaseTime(s, q)));
    PhaseOk(s, q, claim, OwnerFile, value, phase)
  }

  // What a marker asserts about the directory, now and after any crash.
  predicate Supports(inodes: map<FileId, Inode>, entry: Entry, marker: Marker) {
    match marker
    case AcquiredMarker(id, incarnation) =>
      HasStableId(inodes, entry, id) && HasInstalled(entry.installs, incarnation)
    case RecoveredMarker(id, prior, incarnation) =>
      HasStableId(inodes, entry, id) && OwnedBy(incarnation, Some(prior)) in entry.installs
    case ReleasedMarker(id, incarnation) =>
      HasStableId(inodes, entry, id) && HasReleased(entry.installs, incarnation)
    case UncleanMarker(_, _) => true
    case ConflictMarker => true
    case RefusedMarker(reason) => !reason.BadEvidence?
  }

  predicate HasStableId(inodes: map<FileId, Inode>, entry: Entry, id: string) {
    var stable := ReadStable(inodes, entry.names);
    stable.Present? && stable.record.controlPlaneId == id
  }

  // Markers a process may still emit without touching the disk again.
  function Earned(q: Process): set<Marker> {
    if q.claim.None? then {}
    else
      var claim := q.claim.value;
      var acquired := AcquiredMarker(claim.stable.controlPlaneId, claim.incarnation);
      match q.pc
      case AnnounceRecovered =>
        if claim.recoveredFrom.Some?
        then {acquired, RecoveredMarker(claim.stable.controlPlaneId, claim.recoveredFrom.value, claim.incarnation)}
        else {acquired}
      case AnnounceAcquired => {acquired}
      case Closing(CleanRelease) => {ReleasedMarker(claim.stable.controlPlaneId, claim.incarnation)}
      case Announcing(CleanRelease) => {ReleasedMarker(claim.stable.controlPlaneId, claim.incarnation)}
      case _ => {}
  }

  predicate Supported(disk: Disk, marker: Marker) {
    forall k: nat {:trigger Supports(disk.inodes, At(disk, k), marker)} | k <= |disk.pending| ::
      Supports(disk.inodes, At(disk, k), marker)
  }

  predicate MarkersSupported(s: State) {
    && (forall marker | marker in s.log :: Supported(s.disk, marker))
    && (forall p, marker | p in s.procs && marker in Earned(s.procs[p]) :: Supported(s.disk, marker))
  }

  predicate LocksOk(s: State) {
    forall file | file in s.locks ::
      s.locks[file] in s.procs && s.procs[s.locks[file]].locked && s.procs[s.locks[file]].lockFile == file
  }

  predicate ProcsOk(s: State) {
    forall p {:trigger StaticOk(s, p, s.procs[p])} | p in s.procs ::
      StaticOk(s, p, s.procs[p]) && (s.procs[p].locked ==> WindowOk(s, s.procs[p]))
  }

  predicate Inv(s: State) {
    && s.root.path != "" && ValidDigest(s.root.digest)
    && CrashSafe(s.root, s.used, s.disk)
    && LocksOk(s)
    && ProcsOk(s)
    && MarkersSupported(s)
  }

  /* ------------------------- one holder at a time ----------------------- */

  lemma OneHolder(s: State, p: nat, p': nat)
    requires Inv(s) && p in s.procs && p' in s.procs && s.procs[p].locked && s.procs[p'].locked
    ensures p == p'
  {
    assert StaticOk(s, p, s.procs[p]) && StaticOk(s, p', s.procs[p']);
  }

  lemma InitialInv(s: State)
    requires Initial(s)
    ensures Inv(s)
  {
  }

  lemma LiveGood(s: State)
    requires Inv(s)
    ensures GoodEntry(s.root, s.disk.inodes, s.used, Live(s.disk))
  {
  }

  /* ------------------- frame: what the others still know ----------------- */

  // Replacing one process and keeping the lock name keeps every process that
  // holds no lock; nothing else they rely on can change.
  predicate SameLockName(s: State, t: State) {
    LockName in Names(s) ==> LockName in Names(t) && Names(t)[LockName] == Names(s)[LockName]
  }

  lemma OthersAfterHolder(s: State, t: State, p: nat, q: Process)
    requires Inv(s) && p in s.procs && s.procs[p].locked
    requires t.root == s.root && s.used <= t.used && t.procs == s.procs[p := q] && SameLockName(s, t)
    requires forall file | file in s.locks && s.locks[file] != p :: file in t.locks && t.locks[file] == s.locks[file]
    ensures forall r | r in t.procs && r != p :: StaticOk(t, r, t.procs[r]) && !t.procs[r].locked
  {
    forall r | r in t.procs && r != p
      ensures StaticOk(t, r, t.procs[r]) && !t.procs[r].locked
    {
      assert StaticOk(s, r, s.procs[r]);
      if s.procs[r].locked {
        OneHolder(s, r, p);
      }
    }
  }

  // The same when the directory and its readings are untouched.
  predicate SameView(s: State, t: State) {
    && Live(t.disk) == Live(s.disk)
    && StableNow(t) == StableNow(s)
    && (forall file | file in s.disk.inodes ::
      && file in t.disk.inodes
      && t.disk.inodes[file].synced == s.disk.inodes[file].synced
      && t.disk.inodes[file].content == s.disk.inodes[file].content)
  }

  lemma SameViewWindow(s: State, t: State, q: Process)
    requires SameView(s, t) && t.root == s.root && WindowOk(s, q)
    ensures WindowOk(t, q)
  {
  }

  lemma OthersSameView(s: State, t: State, p: nat, q: Process)
    requires Inv(s) && SameView(s, t)
    requires t.root == s.root && s.used <= t.used && t.procs == s.procs[p := q]
    requires forall file | file in s.locks && s.locks[file] != p :: file in t.locks && t.locks[file] == s.locks[file]
    ensures forall r | r in t.procs && r != p ::
      StaticOk(t, r, t.procs[r]) && (t.procs[r].locked ==> WindowOk(t, t.procs[r]))
  {
    forall r | r in t.procs && r != p
      ensures StaticOk(t, r, t.procs[r]) && (t.procs[r].locked ==> WindowOk(t, t.procs[r]))
    {
      assert StaticOk(s, r, s.procs[r]);
      if s.procs[r].locked {
        SameViewWindow(s, t, s.procs[r]);
      }
    }
  }

  /* ----------------- markers stay true as the disk grows ---------------- */

  lemma SupportAppend(disk: Disk, op: DirectoryOp, marker: Marker)
    requires Supported(disk, marker)
    requires Supports(disk.inodes, Live(disk), marker) ==> Supports(disk.inodes, Apply(Live(disk), op), marker)
    ensures Supported(Append(disk, op), marker)
  {
    AtAppend(disk, op);
    var after := Append(disk, op);
    forall k: nat | k <= |after.pending|
      ensures Supports(after.inodes, At(after, k), marker)
    {
      if k <= |disk.pending| {
        assert At(after, k) == At(disk, k);
      }
    }
  }

  lemma SupportSync(disk: Disk, marker: Marker)
    requires Supports(disk.inodes, Live(disk), marker)
    ensures Supported(SyncDirectory(disk), marker)
  {
    assert SyncDirectory(disk).pending[..0] == [];
  }

  lemma SupportQuiet(root: Root, used: set<string>, disk: Disk, inodes: map<FileId, Inode>, marker: Marker)
    requires CrashSafe(root, used, disk) && QuietInodeChange(disk.inodes, inodes)
    requires Supported(disk, marker)
    ensures Supported(disk.(inodes := inodes), marker)
  {
    forall k: nat | k <= |disk.pending|
      ensures Supports(inodes, At(disk.(inodes := inodes), k), marker)
    {
      assert At(disk.(inodes := inodes), k) == At(disk, k);
      assert GoodEntry(root, disk.inodes, used, At(disk, k));
      QuietEntry(root, disk.inodes, inodes, used, At(disk, k));
      assert Supports(disk.inodes, At(disk, k), marker);
    }
  }
}
