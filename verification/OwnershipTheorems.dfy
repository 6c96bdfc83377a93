// What the ownership protocol guarantees over every run.
module OwnershipTheorems {
  import opened Prelude
  import opened ControlPlaneNames
  import opened ControlPlaneDisk
  import opened OwnershipProtocol
  import opened OwnershipSafety
  import opened OwnershipSteps
  import opened OwnershipInvariant

  /* -------------------------- exclusion and windows --------------------- */

  // At most one process is between taking the lock and dropping it, and they
  // all locked the same file.
  lemma AtMostOneHolder(s: State, p: nat, p': nat)
    requires Reachable(s) && p in s.procs && p' in s.procs && s.procs[p].locked && s.procs[p'].locked
    ensures p == p' && LockName in Names(s) && s.procs[p].lockFile == Names(s)[LockName]
  {
    ReachableInv(s);
    OneHolder(s, p, p');
    assert StaticOk(s, p, s.procs[p]);
  }

  // Apart from a crash, the entry directory changes only by the call of the
  // process that holds the lock, or by the creation of the lock file itself;
  // and no call unlinks or renames the lock file.
  lemma ChangesInsideWindow(s: State, a: Action)
    requires Reachable(s) && Enabled(s, a) && !a.PowerLoss?
    ensures SameLockName(s, Next(s, a))
    ensures Live(Next(s, a).disk) != Live(s.disk) ==>
      a.Advance? &&
      (s.procs[a.proc].locked ||
       (LockName !in Names(s) && Live(Next(s, a).disk) == Live(s.disk).(names := Names(s)[LockName := a.file])))
  {
    ReachableInv(s);
    if a.Advance? {
      AdvanceChanges(s, a);
    } else if a.Fault? {
      FaultChangesNothing(s, a);
    }
  }

  lemma FaultChangesNothing(s: State, a: Action)
    requires a.Fault? && Enabled(s, a)
    ensures Next(s, a).disk == s.disk
  {
  }

  lemma AdvanceChanges(s: State, a: Action)
    requires Inv(s) && a.Advance? && Enabled(s, a)
    ensures SameLockName(s, Next(s, a))
    ensures Live(Next(s, a).disk) == Live(s.disk) || s.procs[a.proc].locked ||
            (LockName !in Names(s) && Live(Next(s, a).disk) == Live(s.disk).(names := Names(s)[LockName := a.file]))
  {
    var p := a.proc;
    var q := s.procs[p];
    assert StaticOk(s, p, q);
    if q.pc == OpenLock {
      if LockName !in Names(s) {
        CreateFacts(s.root, s.used, s.disk, LockName, a.file, q.umask);
      }
    } else if q.pc == ProtectLock {
      ProtectFacts(s.root, s.used, s.disk, LockName);
    } else if NeedsClaim(q.pc) {
      ClaimStepLock(s, p, a);
    }
  }

  lemma WriteDiskLock(s: State, p: nat, file: FileId, destination: RecordFile, value: JsonValue, installs: seq<Install>,
                      phase: WritePhase)
    requires Inv(s) && p in s.procs && s.procs[p].claim.Some? && LockName in Names(s)
    ensures var q := s.procs[p];
            var temp := Own(q, q.claim.value, destination);
            var disk := WriteDisk(s.disk, q.umask, Target(q, file, phase), temp, destination, value, installs, phase);
            LockName in Live(disk).names && Live(disk).names[LockName] == Names(s)[LockName]
  {
    var q := s.procs[p];
    var temp := Own(q, q.claim.value, destination);
    match phase
    case ToCreate =>
      var mode := CreationMode(q.umask);
      AtAppend(s.disk.(inodes := s.disk.inodes[file := Inode(true, true, mode, mode, Torn, false)]), Link(temp, file));
    case ToProtect =>
    case ToWrite =>
    case ToRename => AtAppend(s.disk, Rename(temp, RecordName(destination), installs));
    case ToSync => SyncFacts(s.root, s.used, s.disk);
  }

  lemma ClaimStepLock(s: State, p: nat, a: Action)
    requires Inv(s) && p in s.procs && s.procs[p].claim.Some? && NeedsClaim(s.procs[p].pc) && a.Advance?
    requires Enabled(s, a) && a.proc == p
    ensures SameLockName(s, ClaimStep(s, p, s.procs[p], a))
  {
    var q := s.procs[p];
    var claim := q.claim.value;
    assert StaticOk(s, p, q);
    Holder(s, p, q.pc);
    match q.pc
    case RemoveTemps =>
      if q.temps != {} {
        UnlinkFacts(s.root, s.used, s.disk, a.leftover);
      }
    case WriteStable(phase) => WriteDiskLock(s, p, a.file, StableFile, StableJson(claim.stable), [], phase);
    case WriteOwner(phase) =>
      WriteDiskLock(s, p, a.file, OwnerFile, OwnerJson(OwnedRecord(s.root, q, claim)),
                    [OwnedBy(claim.incarnation, claim.recoveredFrom)], phase);
    case WriteRelease(phase) =>
      WriteDiskLock(s, p, a.file, OwnerFile, OwnerJson(ReleasedRecord(s.root, q, claim, a.now)),
                    [ReleasedBy(claim.incarnation)], phase);
    case _ =>
  }

  /* ------------------------------ one identity -------------------------- */

  // Every marker any incarnation ever emitted for this root carries one
  // control-plane id, and the directory still records it: a crash now would
  // leave that id and that incarnation's owner record behind.
  lemma OneControlPlaneId(s: State, id: string, incarnation: string, id': string, incarnation': string, kept: nat)
    requires Reachable(s) && kept <= |s.disk.pending|
    requires AcquiredMarker(id, incarnation) in s.log && AcquiredMarker(id', incarnation') in s.log
    ensures id == id'
    ensures HasStableId(s.disk.inodes, At(s.disk, kept), id)
    ensures HasInstalled(At(s.disk, kept).installs, incarnation)
  {
    ReachableInv(s);
    assert Supported(s.disk, AcquiredMarker(id, incarnation)) && Supported(s.disk, AcquiredMarker(id', incarnation'));
    assert Supports(s.disk.inodes, At(s.disk, kept), AcquiredMarker(id, incarnation));
    assert Supports(s.disk.inodes, At(s.disk, kept), AcquiredMarker(id', incarnation'));
  }

  /* -------------------------------- recovery ---------------------------- */

  // The last incarnation to install an owner record, found by scanning back.
  function LastOwner(installs: seq<Install>): Option<string> {
    if installs == [] then None
    else
      var last := installs[|installs| - 1];
      if last.OwnedBy? then Some(last.incarnation) else LastOwner(installs[..|installs| - 1])
  }

  lemma LastOwnerOf(installs: seq<Install>)
    requires GoodInstalls(installs)
    ensures Unreleased(installs) ==
            if LastOwner(installs).Some? && !HasReleased(installs, LastOwner(installs).value) then LastOwner(installs)
            else None
  {
    if installs != [] {
      var n := |installs|;
      if installs[n - 1].OwnedBy? {
        if HasReleased(installs, installs[n - 1].incarnation) {
          ReleaseFollowsInstall(installs, n - 1);
        }
      } else {
        var rest := installs[..n - 1];
        assert rest[|rest| - 1] == installs[n - 2];
        assert installs[n - 1] in installs;
      }
    }
  }

  lemma ReleaseFollowsInstall(installs: seq<Install>, i: nat)
    requires GoodInstalls(installs) && i < |installs| && installs[i].OwnedBy?
    ensures HasReleased(installs, installs[i].incarnation) <==>
            i + 1 < |installs| && installs[i + 1] == ReleasedBy(installs[i].incarnation)
  {
    var incarnation := installs[i].incarnation;
    if HasReleased(installs, incarnation) {
      var j: nat :| j < |installs| && installs[j] == ReleasedBy(incarnation);
      assert UnreleasedBefore(installs, j) == Some(incarnation);
      assert installs[j - 1].OwnedBy? && installs[j - 1].incarnation == incarnation;
      assert j - 1 == i;
    }
  }

  // An acquisition recovers exactly when the last incarnation that installed
  // itself, in what survived every crash, never installed its release; and it
  // names that incarnation.
  lemma RecoversExactly(s: State, a: Action)
    requires Reachable(s) && a.Advance? && Enabled(s, a) && s.procs[a.proc].pc == ReadRecords
    ensures var claim := Next(s, a).procs[a.proc].claim;
            var installs := Live(s.disk).installs;
            var last := LastOwner(installs);
            claim.Some? && claim.value.recoveredFrom ==
            (if last.Some? && !HasReleased(installs, last.value) then last else None)
  {
    ReachableInv(s);
    ClassifyGood(s, a.proc);
    LiveGood(s);
    LastOwnerOf(Live(s.disk).installs);
  }

  // Whoever installs itself next after an incarnation names it as recovered
  // exactly when that incarnation never installed a release.
  lemma SuccessorNamesPredecessor(s: State, i: nat)
    requires Reachable(s)
    requires var installs := Live(s.disk).installs; i < |installs| && installs[i].OwnedBy?
    ensures var installs := Live(s.disk).installs;
            HasReleased(installs, installs[i].incarnation) <==>
            exists j: nat :: j == i + 1 && j < |installs| && installs[j].ReleasedBy?
    ensures var installs := Live(s.disk).installs;
            i + 1 < |installs| && !HasReleased(installs, installs[i].incarnation) ==>
            installs[i + 1].OwnedBy? && installs[i + 1].recoveredFrom == Some(installs[i].incarnation)
  {
    ReachableInv(s);
    LiveGood(s);
    var installs := Live(s.disk).installs;
    ReleaseFollowsInstall(installs, i);
    if i + 1 < |installs| && installs[i + 1].ReleasedBy? {
      assert UnreleasedBefore(installs, i + 1) == Some(installs[i + 1].incarnation);
    }
  }

  // A RECOVERED marker names the incarnation installed just before its own,
  // which never released; a RELEASED marker's incarnation is never recovered from.
  lemma MarkersTellTheTruth(s: State, id: string, prior: string, incarnation: string)
    requires Reachable(s)
    ensures RecoveredMarker(id, prior, incarnation) in s.log ==>
      var installs := Live(s.disk).installs;
      !HasReleased(installs, prior) &&
      exists i: nat :: i + 1 < |installs| && installs[i].OwnedBy? && installs[i].incarnation == prior
                       && installs[i + 1] == OwnedBy(incarnation, Some(prior))
    ensures ReleasedMarker(id, prior) in s.log ==> OwnedBy(incarnation, Some(prior)) !in Live(s.disk).installs
  {
    ReachableInv(s);
    LiveGood(s);
    var installs := Live(s.disk).installs;
    if OwnedBy(incarnation, Some(prior)) in installs {
      RecoveredHasPredecessor(installs, prior, incarnation);
    }
    if RecoveredMarker(id, prior, incarnation) in s.log {
      assert Supports(s.disk.inodes, At(s.disk, |s.disk.pending|), RecoveredMarker(id, prior, incarnation));
    }
    if ReleasedMarker(id, prior) in s.log {
      assert Supports(s.disk.inodes, At(s.disk, |s.disk.pending|), ReleasedMarker(id, prior));
    }
  }

  lemma RecoveredHasPredecessor(installs: seq<Install>, prior: string, incarnation: string)
    requires GoodInstalls(installs) && OwnedBy(incarnation, Some(prior)) in installs
    ensures !HasReleased(installs, prior)
    ensures exists i: nat :: i + 1 < |installs| && installs[i].OwnedBy? && installs[i].incarnation == prior
                             && installs[i + 1] == OwnedBy(incarnation, Some(prior))
  {
    var j: nat :| j < |installs| && installs[j] == OwnedBy(incarnation, Some(prior));
    assert UnreleasedBefore(installs, j) == Some(prior);
    var i := j - 1;
    assert i + 1 < |installs| && installs[i].OwnedBy? && installs[i].incarnation == prior;
    ReleaseFollowsInstall(installs, i);
  }

  /* ------------------------- what is not accepted ------------------------ */

  // Both records are readable, an owner record does not stand alone, both name
  // this root by path and digest, and the owner record names the same control
  // plane, this workspace directory and this very lock file.
  predicate Acceptable(root: Root, lock: FileId, inodes: map<FileId, Inode>, names: map<Name, FileId>) {
    var stable, owner := ReadStable(inodes, names), ReadOwner(inodes, names);
    && (owner.Absent? || owner.Present?) && (stable.Present? || (stable.Absent? && owner.Absent?))
    && (stable.Present? ==> stable.record.rootPath == root.path && stable.record.digest == root.digest)
    && (owner.Present? ==>
        && owner.record.controlPlaneId == stable.record.controlPlaneId
        && owner.record.rootPath == root.path && owner.record.digest == root.digest
        && owner.record.workspaceInode == root.workspaceInode && owner.record.lockInode == lock)
  }

  lemma ProceedsIff(root: Root, lock: FileId, inodes: map<FileId, Inode>, names: map<Name, FileId>)
    ensures Classify(root, lock, ReadStable(inodes, names), ReadOwner(inodes, names)).Proceed? <==>
            Acceptable(root, lock, inodes, names)
    ensures forall file :: ReadableRecord(inodes, names, file) <==>
            if file == StableFile then ReadStable(inodes, names).Present? else ReadOwner(inodes, names).Present?
  {
    forall file
      ensures ReadableRecord(inodes, names, file) <==>
              if file == StableFile then ReadStable(inodes, names).Present? else ReadOwner(inodes, names).Present?
    {
      match file case StableFile => case OwnerFile =>
    }
  }

  // Which ruling falls when, and whom an acquisition that goes on recovers from.
  lemma RulingMeans(root: Root, lock: FileId, stable: Reading<StableRecord>, owner: Reading<OwnerRecord>)
    ensures var ruling := Classify(root, lock, stable, owner);
            && (ruling.Refuse? && ruling.evidence.UnreadableRecord? <==> stable.Unreadable? || owner.Unreadable?)
            && (ruling == Verdict.Refuse(OwnerWithoutStable) <==> stable.Absent? && owner.Present?)
            && (ruling == Verdict.Refuse(StableMismatch) <==>
                && stable.Present? && !owner.Unreadable?
                && (stable.record.rootPath != root.path || stable.record.digest != root.digest))
            && (ruling == Verdict.Refuse(OwnerMismatch) <==>
                && stable.Present? && stable.record.rootPath == root.path && stable.record.digest == root.digest
                && owner.Present?
                && (|| owner.record.controlPlaneId != stable.record.controlPlaneId
                    || owner.record.rootPath != root.path || owner.record.digest != root.digest
                    || owner.record.workspaceInode != root.workspaceInode || owner.record.lockInode != lock))
            && (ruling.Proceed? ==>
                && ruling.stable == (if stable.Present? then Some(stable.record) else None)
                && (ruling.recoveredFrom.Some? <==> owner.Present? && owner.record.state == Owned)
                && (ruling.recoveredFrom.Some? ==> ruling.recoveredFrom == Some(owner.record.incarnationId)))
  {
  }

  // An inventory passes when it holds nothing but the lock file, the records and
  // leftovers that are regular files of this user's with mode 0600.
  lemma InventoryMeans(inodes: map<FileId, Inode>, names: map<Name, FileId>)
    ensures InventoryPasses(inodes, names) <==>
            forall name | name in names ::
              && !name.ForeignName?
              && (name.TempName? ==>
                  && names[name] in inodes && inodes[names[name]].regular && inodes[names[name]].ownUid
                  && inodes[names[name]].mode == {OwnerRead, OwnerWrite})
    ensures forall name :: name in Temps(names) <==> name in names && name.TempName?
  {
    assert forall name | name in names :: SafeLeftover(inodes, names, name) <==>
      && !name.ForeignName?
      && (name.TempName? ==>
          && names[name] in inodes && inodes[names[name]].regular && inodes[names[name]].ownUid
          && inodes[names[name]].mode == {OwnerRead, OwnerWrite});
  }

  // A regular file of this user's with mode 0600 holding a complete record of its kind.
  predicate ReadableRecord(inodes: map<FileId, Inode>, names: map<Name, FileId>, file: RecordFile) {
    && RecordName(file) in names && names[RecordName(file)] in inodes
    && var inode := inodes[names[RecordName(file)]];
       && inode.regular && inode.ownUid && inode.mode == PROTECTED && inode.content.Json?
       && (file == StableFile ==>
           inode.content.value.StableJson?
           && var record := inode.content.value.stable;
              ValidUuid(record.controlPlaneId) && record.rootPath != "" && ValidDigest(record.digest))
       && (file == OwnerFile ==>
           inode.content.value.OwnerJson?
           && var record := inode.content.value.owner;
              && (record.formatVersion == 1 || record.formatVersion == 2)
              && ValidUuid(record.controlPlaneId) && ValidUuid(record.incarnationId) && record.pid > 0
              && record.hostname != "" && record.rootPath != "" && ValidDigest(record.digest)
              && (if record.state == Released then record.releasedAt.Some? else record.releasedAt.None?))
  }
}
