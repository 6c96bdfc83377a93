// Poisoned incarnations.
module OwnershipPoison {
  import opened Prelude
  import opened ControlPlaneNames
  import opened ControlPlaneDisk
  import opened OwnershipProtocol
  import opened OwnershipSafety
  import opened OwnershipSteps
  import opened OwnershipInvariant
  import opened OwnershipTheorems
  import opened OwnershipProgress

  function ClaimedBy(q: Process): Option<string> {
    if q.claim.Some? then Some(q.claim.value.incarnation) else None
  }

  // No two processes ever claim the same incarnation.
  ghost predicate UniqueClaims(s: State) {
    forall p, r | p in s.procs && r in s.procs && ClaimedBy(s.procs[p]).Some?
                  && ClaimedBy(s.procs[p]) == ClaimedBy(s.procs[r]) :: p == r
  }

  // An action changes at most one process's claim, and only to take an unused id.
  ghost predicate ClaimsFollow(s: State, t: State) {
    && s.used <= t.used
    && forall p | p in t.procs && ClaimedBy(t.procs[p]).Some? ::
      p in s.procs && (ClaimedBy(t.procs[p]) == ClaimedBy(s.procs[p]) || FreshClaim(s, t, p))
  }

  ghost predicate FreshClaim(s: State, t: State, p: nat) {
    && p in s.procs && p in t.procs && s.procs[p].pc == ReadRecords && t.procs[p].pc == RemoveTemps
    && ClaimedBy(t.procs[p]).Some? && ClaimedBy(t.procs[p]).value !in s.used
    && forall r | r in t.procs && r != p :: r in s.procs && t.procs[r] == s.procs[r]
  }

  // A step of one process that keeps its claim.
  lemma ClaimsFollowPut(s: State, t: State, p: nat, q: Process)
    requires p in s.procs && t.procs == s.procs[p := q] && t.used == s.used && ClaimedBy(q) == ClaimedBy(s.procs[p])
    ensures ClaimsFollow(s, t)
  {
  }

  lemma ClaimsFollowClaimStep(s: State, a: Action)
    requires a.Advance? && Enabled(s, a) && s.procs[a.proc].claim.Some?
    ensures ClaimsFollow(s, ClaimStep(s, a.proc, s.procs[a.proc], a))
  {
    var p := a.proc;
    var q, t := s.procs[p], ClaimStep(s, p, s.procs[p], a);
    if t != s {
      ClaimsFollowPut(s, t, p, t.procs[p]);
    }
  }

  lemma ClaimsFollowReading(s: State, a: Action)
    requires a.Advance? && Enabled(s, a) && s.procs[a.proc].pc == ReadRecords
    ensures ClaimsFollow(s, Next(s, a))
  {
    if Next(s, a).used != s.used {
      assert FreshClaim(s, Next(s, a), a.proc);
    }
  }

  lemma ClaimsFollowElsewhere(s: State, a: Action)
    requires a.Advance? && Enabled(s, a) && s.procs[a.proc].pc != ReadRecords && !(5 <= Stage(s.procs[a.proc].pc) <= 40)
    ensures ClaimsFollow(s, Next(s, a))
  {
    ClaimsFollowPut(s, Next(s, a), a.proc, Next(s, a).procs[a.proc]);
  }

  lemma ClaimsFollowAdvance(s: State, a: Action)
    requires a.Advance? && Enabled(s, a)
    ensures ClaimsFollow(s, Next(s, a))
  {
    if s.procs[a.proc].pc == ReadRecords {
      ClaimsFollowReading(s, a);
    } else if !(5 <= Stage(s.procs[a.proc].pc) <= 40) {
      ClaimsFollowElsewhere(s, a);
    } else if s.procs[a.proc].claim.Some? {
      assert Next(s, a) == ClaimStep(s, a.proc, s.procs[a.proc], a);
      ClaimsFollowClaimStep(s, a);
    } else {
      assert Next(s, a) == s;
    }
  }

  lemma ClaimsFollowStep(s: State, a: Action)
    requires Enabled(s, a)
    ensures ClaimsFollow(s, Next(s, a))
  {
    if a.Advance? {
      ClaimsFollowAdvance(s, a);
    } else if a.Fault? {
      if Next(s, a) != s { ClaimsFollowPut(s, Next(s, a), a.proc, Next(s, a).procs[a.proc]); }
    }
  }

  lemma UniqueClaimsStep(s: State, a: Action)
    requires Inv(s) && UniqueClaims(s) && Enabled(s, a)
    ensures UniqueClaims(Next(s, a))
  {
    var t := Next(s, a);
    ClaimsFollowStep(s, a);
    forall p, r | p in t.procs && r in t.procs && ClaimedBy(t.procs[p]).Some?
                  && ClaimedBy(t.procs[p]) == ClaimedBy(t.procs[r])
      ensures p == r
    {
      assert StaticOk(s, p, s.procs[p]) && StaticOk(s, r, s.procs[r]);
    }
  }

  /* ------------------ a poisoned incarnation never releases -------------- */

  ghost predicate NeverReleased(disk: Disk, incarnation: string) {
    forall k: nat {:trigger At(disk, k)} | k <= |disk.pending| :: !HasReleased(At(disk, k).installs, incarnation)
  }

  // Nobody left can install this incarnation's release, whatever happens next.
  ghost predicate Doomed(s: State, incarnation: string) {
    && incarnation in s.used
    && NeverReleased(s.disk, incarnation)
    && forall p | p in s.procs && ClaimedBy(s.procs[p]) == Some(incarnation) ::
      Spent(s.procs[p])
  }

  // The only operation that adds a release to a directory's history.
  ghost predicate KeepsReleases(before: Disk, after: Disk, incarnation: string) {
    NeverReleased(before, incarnation) ==> NeverReleased(after, incarnation)
  }

  lemma AppendReleases(disk: Disk, op: DirectoryOp, incarnation: string)
    requires op.Rename? ==> ReleasedBy(incarnation) !in op.installs
    ensures KeepsReleases(disk, Append(disk, op), incarnation)
  {
    AtAppend(disk, op);
    var after := Append(disk, op);
    if NeverReleased(disk, incarnation) {
      forall k: nat | k <= |after.pending|
        ensures !HasReleased(At(after, k).installs, incarnation)
      {
        if k <= |disk.pending| { assert At(after, k) == At(disk, k); }
      }
    }
  }

  lemma InodesReleases(disk: Disk, inodes: map<FileId, Inode>, incarnation: string)
    ensures KeepsReleases(disk, disk.(inodes := inodes), incarnation)
  {
    forall k: nat | k <= |disk.pending|
      ensures At(disk.(inodes := inodes), k) == At(disk, k)
    {
    }
  }

  lemma CreateReleases(disk: Disk, name: Name, file: FileId, umask: Mode, incarnation: string)
    ensures KeepsReleases(disk, CreateFile(disk, name, file, umask), incarnation)
  {
    var mode := CreationMode(umask);
    var inodes := disk.inodes[file := Inode(true, true, mode, mode, Torn, false)];
    InodesReleases(disk, inodes, incarnation);
    AppendReleases(disk.(inodes := inodes), Link(name, file), incarnation);
  }

  lemma SettleReleases(disk: Disk, kept: nat, inodes: map<FileId, Inode>, incarnation: string)
    requires kept <= |disk.pending|
    ensures KeepsReleases(disk, AfterPowerLoss(disk, kept, inodes), incarnation)
  {
    assert AfterPowerLoss(disk, kept, inodes).pending[..0] == [];
  }

  lemma WriteDiskReleases(disk: Disk, umask: Mode, file: FileId, temp: Name, destination: RecordFile, value: JsonValue,
                          installs: seq<Install>, phase: WritePhase, incarnation: string)
    requires ReleasedBy(incarnation) !in installs
    ensures KeepsReleases(disk, WriteDisk(disk, umask, file, temp, destination, value, installs, phase), incarnation)
  {
    match phase
    case ToCreate => CreateReleases(disk, temp, file, umask, incarnation);
    case ToProtect => InodesReleases(disk, ProtectFile(disk, file).inodes, incarnation);
    case ToWrite => InodesReleases(disk, WriteAndSync(disk, file, value).inodes, incarnation);
    case ToRename => AppendReleases(disk, Rename(temp, RecordName(destination), installs), incarnation);
    case ToSync => SettleReleases(disk, |disk.pending|, disk.inodes, incarnation);
  }

  lemma DoomedDisk(s: State, a: Action, incarnation: string)
    requires Doomed(s, incarnation) && Enabled(s, a)
    ensures NeverReleased(Next(s, a).disk, incarnation)
  {
    if a.PowerLoss? {
      SettleReleases(s.disk, a.kept, a.inodes, incarnation);
    } else if a.Fault? {
      FaultChangesNothing(s, a);
    } else if a.Advance? {
      DoomedAdvance(s, a, incarnation);
    }
  }

  lemma DoomedAdvance(s: State, a: Action, incarnation: string)
    requires Doomed(s, incarnation) && a.Advance? && Enabled(s, a)
    ensures NeverReleased(Next(s, a).disk, incarnation)
  {
    var q := s.procs[a.proc];
    if q.pc == OpenLock {
      if LockName !in Names(s) { CreateReleases(s.disk, LockName, a.file, q.umask, incarnation); }
    } else if q.pc == ProtectLock {
      InodesReleases(s.disk, ProtectFile(s.disk, q.lockFile).inodes, incarnation);
    } else if 5 <= Stage(q.pc) <= 40 && q.claim.Some? {
      DoomedClaimStep(s, a, incarnation);
    }
  }

  lemma DoomedClaimStep(s: State, a: Action, incarnation: string)
    requires Doomed(s, incarnation) && a.Advance? && Enabled(s, a) && s.procs[a.proc].claim.Some?
    ensures NeverReleased(ClaimStep(s, a.proc, s.procs[a.proc], a).disk, incarnation)
  {
    var q := s.procs[a.proc];
    var claim := q.claim.value;
    match q.pc
    case RemoveTemps => AppendReleases(s.disk, Unlink(a.leftover), incarnation);
    case WriteStable(phase) =>
      WriteDiskReleases(s.disk, q.umask, Target(q, a.file, phase), Own(q, claim, StableFile), StableFile,
          StableJson(claim.stable), [], phase, incarnation);
    case WriteOwner(phase) =>
      WriteDiskReleases(s.disk, q.umask, Target(q, a.file, phase), Own(q, claim, OwnerFile), OwnerFile,
          OwnerJson(OwnedRecord(s.root, q, claim)),
                        [OwnedBy(claim.incarnation, claim.recoveredFrom)], phase, incarnation);
    case WriteRelease(phase) =>
      assert claim.incarnation != incarnation;
      WriteDiskReleases(s.disk, q.umask, Target(q, a.file, phase), Own(q, claim, OwnerFile), OwnerFile,
                        OwnerJson(ReleasedRecord(s.root, q, claim, a.now)), [ReleasedBy(claim.incarnation)], phase,
                            incarnation);
    case _ =>
  }

  // Past its last chance to release, and poisoned.
  predicate Spent(q: Process) {
    q.poisoned && (q.pc == Running || Stage(q.pc) <= 3)
  }

  lemma SpentStays(s: State, a: Action)
    requires !a.Spawn? && !a.Kill? && !a.PowerLoss? && Enabled(s, a) && Spent(s.procs[a.proc])
    ensures a.proc in Next(s, a).procs && Spent(Next(s, a).procs[a.proc])
  {
  }

  lemma BystanderUntouched(s: State, a: Action, p: nat)
    requires Enabled(s, a) && p in Next(s, a).procs && (a.PowerLoss? || a.proc != p)
    ensures p in s.procs && Next(s, a).procs[p] == s.procs[p]
  {
    if a.Advance? && s.procs[a.proc].claim.Some? && 5 <= Stage(s.procs[a.proc].pc) <= 40 {
      BystanderOfClaimStep(s, a, p);
    }
  }

  lemma BystanderOfClaimStep(s: State, a: Action, p: nat)
    requires a.Advance? && Enabled(s, a) && a.proc != p && s.procs[a.proc].claim.Some?
    requires p in ClaimStep(s, a.proc, s.procs[a.proc], a).procs
    ensures p in s.procs && ClaimStep(s, a.proc, s.procs[a.proc], a).procs[p] == s.procs[p]
  {
  }

  lemma DoomedProcs(s: State, a: Action, incarnation: string, p: nat)
    requires Inv(s) && Doomed(s, incarnation) && Enabled(s, a)
    requires p in Next(s, a).procs && ClaimedBy(Next(s, a).procs[p]) == Some(incarnation)
    ensures p in s.procs && ClaimedBy(s.procs[p]) == Some(incarnation) && Spent(Next(s, a).procs[p])
  {
    ClaimsFollowStep(s, a);
    assert ClaimedBy(s.procs[p]) == Some(incarnation);
    if a.PowerLoss? || a.proc != p {
      BystanderUntouched(s, a, p);
    } else {
      SpentStays(s, a);
    }
  }

  lemma DoomedStep(s: State, a: Action, incarnation: string)
    requires Inv(s) && Doomed(s, incarnation) && Enabled(s, a)
    ensures Doomed(Next(s, a), incarnation)
  {
    var t := Next(s, a);
    DoomedDisk(s, a, incarnation);
    ClaimsFollowStep(s, a);
    forall p | p in t.procs && ClaimedBy(t.procs[p]) == Some(incarnation)
      ensures Spent(t.procs[p])
    {
      DoomedProcs(s, a, incarnation, p);
    }
  }

  lemma {:induction false} DoomedRun(s: State, actions: seq<Action>, t: State, incarnation: string)
    requires Inv(s) && (forall a | a in actions :: Ordinary(a)) && Run(s, actions) == Some(t)
    requires Doomed(s, incarnation)
    ensures Inv(t) && Doomed(t, incarnation)
  {
    if actions != [] {
      var before := Run(s, actions[..|actions| - 1]).value;
      DoomedRun(s, actions[..|actions| - 1], before, incarnation);
      NextKeeps(before, actions[|actions| - 1]);
      DoomedStep(before, actions[|actions| - 1], incarnation);
    }
  }

  /* ------------------ what a running process has behind it --------------- */

  predicate EndsRelease(ending: Ending) {
    ending.CleanRelease? || ending.UncleanRelease?
  }

  // From running to the last marker of the release.
  predicate HasRun(pc: Pc) {
    5 <= Stage(pc) <= 14 || ((pc.Closing? || pc.Announcing?) && EndsRelease(pc.ending))
  }

  predicate Announced(s: State, q: Process) {
    HasRun(q.pc) && q.claim.Some? ==>
      AcquiredMarker(q.claim.value.stable.controlPlaneId, q.claim.value.incarnation) in s.log
  }

  // Whoever ends in an unclean release is poisoned.
  predicate UncleanPoisoned(q: Process) {
    (q.pc.Closing? || q.pc.Announcing?) && q.pc.ending.UncleanRelease? ==> q.poisoned
  }

  ghost predicate History(s: State) {
    UniqueClaims(s) && forall p | p in s.procs :: Announced(s, s.procs[p]) && UncleanPoisoned(s.procs[p])
  }

  predicate LogGrows(s: State, t: State) {
    s.log <= t.log
  }

  lemma LogGrowsStep(s: State, a: Action)
    requires Enabled(s, a)
    ensures LogGrows(s, Next(s, a))
  {
    if a.Advance? && s.procs[a.proc].claim.Some? && 5 <= Stage(s.procs[a.proc].pc) <= 40 {
      LogGrowsClaimStep(s, a);
    }
  }

  lemma LogGrowsClaimStep(s: State, a: Action)
    requires a.Advance? && Enabled(s, a) && s.procs[a.proc].claim.Some?
    ensures LogGrows(s, ClaimStep(s, a.proc, s.procs[a.proc], a))
  {
  }

  lemma WriteStillOpening(s: State, a: Action)
    requires a.Advance? && Enabled(s, a) && s.procs[a.proc].claim.Some?
    requires s.procs[a.proc].pc.RemoveTemps? || s.procs[a.proc].pc.WriteStable?
    ensures var t := ClaimStep(s, a.proc, s.procs[a.proc], a);
            a.proc in t.procs && !HasRun(t.procs[a.proc].pc)
  {
  }

  lemma OwnerStillOpening(s: State, a: Action)
    requires a.Advance? && Enabled(s, a) && s.procs[a.proc].claim.Some?
    requires s.procs[a.proc].pc.WriteOwner? || s.procs[a.proc].pc.AnnounceRecovered?
    ensures var t := ClaimStep(s, a.proc, s.procs[a.proc], a);
            a.proc in t.procs && !HasRun(t.procs[a.proc].pc)
  {
  }

  lemma ReleaseKeepsClaim(s: State, a: Action)
    requires a.Advance? && Enabled(s, a) && s.procs[a.proc].claim.Some?
    requires s.procs[a.proc].pc.Running? || Releasing(s.procs[a.proc].pc)
    ensures var t := ClaimStep(s, a.proc, s.procs[a.proc], a);
            a.proc in t.procs && t.procs[a.proc].claim == s.procs[a.proc].claim && t.log == s.log
  {
  }

  // The step that makes a process run is the one that announced it.
  lemma AnnouncedClaimStep(s: State, a: Action)
    requires a.Advance? && Enabled(s, a) && s.procs[a.proc].claim.Some? && Announced(s, s.procs[a.proc])
    requires 5 <= Stage(s.procs[a.proc].pc) <= 40
    ensures var t := ClaimStep(s, a.proc, s.procs[a.proc], a);
            a.proc in t.procs && Announced(t, t.procs[a.proc])
  {
    match s.procs[a.proc].pc
    case RemoveTemps => WriteStillOpening(s, a);
    case WriteStable(_) => WriteStillOpening(s, a);
    case WriteOwner(_) => OwnerStillOpening(s, a);
    case AnnounceRecovered => OwnerStillOpening(s, a);
    case AnnounceAcquired =>
    case _ => ReleaseKeepsClaim(s, a);
  }

  predicate Opening(pc: Pc) {
    || pc.OpenLock? || pc.ProtectLock? || pc.CheckLock? || pc.TakeLock? || pc.Inventory? || pc.ReadRecords?
    || pc.RemoveTemps? || (pc.Closing? && !EndsRelease(pc.ending))
  }

  lemma AnnouncedReading(s: State, a: Action)
    requires a.Advance? && Enabled(s, a) && Opening(s.procs[a.proc].pc) && Stage(s.procs[a.proc].pc) >= 41
    ensures a.proc in Next(s, a).procs && Opening(Next(s, a).procs[a.proc].pc)
  {
    var pc := s.procs[a.proc].pc;
    if pc == OpenLock || pc == ProtectLock {
    } else if pc == CheckLock || pc == TakeLock {
    } else if pc == Inventory {
    } else {
      assert pc == ReadRecords;
    }
  }

  lemma AnnouncedStill(s: State, a: Action)
    requires a.Advance? && Enabled(s, a) && Stage(s.procs[a.proc].pc) in {1, 2, 3, 14}
    requires Announced(s, s.procs[a.proc])
    ensures a.proc in Next(s, a).procs && Announced(Next(s, a), Next(s, a).procs[a.proc])
  {
  }

  lemma FaultKeepsClaim(s: State, a: Action)
    requires a.Fault? && Enabled(s, a)
    ensures a.proc in Next(s, a).procs && Next(s, a).procs[a.proc].claim == s.procs[a.proc].claim
    ensures Next(s, a).log == s.log
  {
  }

  lemma FaultKeepsOpening(s: State, p: nat, transport: bool)
    requires p in s.procs && !HasRun(s.procs[p].pc)
    ensures var t := FaultStep(s, p, s.procs[p], transport); p in t.procs && !HasRun(t.procs[p].pc)
  {
  }

  lemma AnnouncedFault(s: State, a: Action)
    requires a.Fault? && Enabled(s, a) && Announced(s, s.procs[a.proc])
    ensures a.proc in Next(s, a).procs && Announced(Next(s, a), Next(s, a).procs[a.proc])
  {
    FaultKeepsClaim(s, a);
    if !HasRun(s.procs[a.proc].pc) { FaultKeepsOpening(s, a.proc, a.transport); }
  }

  lemma AnnouncedElsewhere(s: State, a: Action)
    requires !a.Kill? && !a.PowerLoss? && Enabled(s, a)
    requires a.Spawn? || Announced(s, s.procs[a.proc])
    requires a.Advance? ==> !(5 <= Stage(s.procs[a.proc].pc) <= 40)
    ensures a.proc in Next(s, a).procs && Announced(Next(s, a), Next(s, a).procs[a.proc])
  {
    if a.Advance? {
      if Stage(s.procs[a.proc].pc) >= 41 { AnnouncedReading(s, a); } else { AnnouncedStill(s, a); }
    } else if a.Fault? {
      AnnouncedFault(s, a);
    }
  }

  lemma AnnouncedStep(s: State, a: Action, p: nat)
    requires Enabled(s, a) && p in Next(s, a).procs && (p in s.procs ==> Announced(s, s.procs[p]))
    ensures Announced(Next(s, a), Next(s, a).procs[p])
  {
    LogGrowsStep(s, a);
    if a.PowerLoss? || a.proc != p {
      BystanderUntouched(s, a, p);
    } else if a.Advance? && 5 <= Stage(s.procs[p].pc) <= 40 {
      if s.procs[p].claim.Some? {
        AnnouncedClaimStep(s, a);
      }
    } else if !a.Kill? {
      AnnouncedElsewhere(s, a);
    }
  }

  lemma PoisonedStep(s: State, a: Action, p: nat)
    requires Enabled(s, a) && p in Next(s, a).procs && (p in s.procs ==> UncleanPoisoned(s.procs[p]))
    ensures UncleanPoisoned(Next(s, a).procs[p])
  {
    if a.PowerLoss? || a.proc != p {
      BystanderUntouched(s, a, p);
    } else if a.Advance? {
      PoisonedAdvance(s, a);
    }
  }

  lemma PoisonedAdvance(s: State, a: Action)
    requires a.Advance? && Enabled(s, a) && UncleanPoisoned(s.procs[a.proc])
    ensures a.proc in Next(s, a).procs && UncleanPoisoned(Next(s, a).procs[a.proc])
  {
    if 5 <= Stage(s.procs[a.proc].pc) <= 40 {
      if s.procs[a.proc].claim.Some? { PoisonedClaimStep(s, a); }
    } else if Stage(s.procs[a.proc].pc) >= 41 {
      AnnouncedReading(s, a);
    }
  }

  lemma PoisonedClaimStep(s: State, a: Action)
    requires a.Advance? && Enabled(s, a) && s.procs[a.proc].claim.Some?
    requires UncleanPoisoned(s.procs[a.proc])
    ensures var t := ClaimStep(s, a.proc, s.procs[a.proc], a);
            a.proc in t.procs && UncleanPoisoned(t.procs[a.proc])
  {
  }

  lemma {:induction false} RunHistory(start: State, actions: seq<Action>, s: State)
    requires Inv(start) && History(start) && (forall a | a in actions :: Ordinary(a)) && Run(start, actions) == Some(s)
    ensures Inv(s) && History(s)
  {
    if actions != [] {
      var before, a := Run(start, actions[..|actions| - 1]).value, actions[|actions| - 1];
      RunHistory(start, actions[..|actions| - 1], before);
      NextKeeps(before, a);
      UniqueClaimsStep(before, a);
      forall p | p in s.procs
        ensures Announced(s, s.procs[p]) && UncleanPoisoned(s.procs[p])
      {
        AnnouncedStep(before, a, p);
        PoisonedStep(before, a, p);
      }
    }
  }

  lemma ReachableHistory(s: State)
    requires Reachable(s)
    ensures Inv(s) && History(s)
  {
    var start: State, actions: seq<Action> :|
      Initial(start) && (forall a | a in actions :: Ordinary(a)) && Run(start, actions) == Some(s);
    InitialInv(start);
    RunHistory(start, actions, s);
  }

  // What a crash keeps of the install history is a prefix of it.
  lemma {:induction false} InstallsGrow(disk: Disk, k: nat, n: nat)
    requires k <= n <= |disk.pending|
    ensures At(disk, k).installs <= At(disk, n).installs
  {
    if k < n {
      InstallsGrow(disk, k, n - 1);
      assert disk.pending[..n][..n - 1] == disk.pending[..n - 1];
    }
  }

  lemma LastOwnerNotReleased(s: State, incarnation: string)
    requires Inv(s)
    requires var installs := Live(s.disk).installs;
             installs != [] && installs[|installs| - 1].OwnedBy? && installs[|installs| - 1].incarnation == incarnation
    ensures NeverReleased(s.disk, incarnation)
  {
    var installs := Live(s.disk).installs;
    LiveGood(s);
    ReleaseFollowsInstall(installs, |installs| - 1);
    forall k: nat | k <= |s.disk.pending|
      ensures !HasReleased(At(s.disk, k).installs, incarnation)
    {
      InstallsGrow(s.disk, k, |s.disk.pending|);
    }
  }

  // A process that lost its claim to release before the release was installed.
  lemma DoomedWhen(s: State, p: nat)
    requires Inv(s) && History(s) && p in s.procs && s.procs[p].locked && s.procs[p].claim.Some?
    requires s.procs[p].pc == Running || Releasing(s.procs[p].pc)
    requires s.procs[p].pc != WriteRelease(ToSync)
    ensures NeverReleased(s.disk, s.procs[p].claim.value.incarnation)
    ensures forall r | r in s.procs && ClaimedBy(s.procs[r]) == ClaimedBy(s.procs[p]) :: r == p
    ensures s.procs[p].claim.value.incarnation in s.used
  {
    Holder(s, p, s.procs[p].pc);
    LastOwnerNotReleased(s, s.procs[p].claim.value.incarnation);
  }

  lemma ReleasedIsInstalled(s: State, id: string, incarnation: string)
    requires Inv(s)
    ensures ReleasedMarker(id, incarnation) in s.log ==> HasReleased(Live(s.disk).installs, incarnation)
  {
    if ReleasedMarker(id, incarnation) in s.log {
      assert Supports(s.disk.inodes, At(s.disk, |s.disk.pending|), ReleasedMarker(id, incarnation));
    }
  }

  // An incarnation found poisoned while it runs never installs or announces a
  // release again, whatever it and everyone else go on to do; it stays poisoned,
  // and whoever installs itself next names it as recovered from.
  lemma PoisonedForGood(s: State, p: nat, actions: seq<Action>, t: State)
    requires Reachable(s) && p in s.procs && s.procs[p].pc == Running && s.procs[p].poisoned
    requires (forall a | a in actions :: Ordinary(a)) && Run(s, actions) == Some(t)
    ensures s.procs[p].claim.Some?
    ensures var incarnation := s.procs[p].claim.value.incarnation;
            && !HasReleased(Live(t.disk).installs, incarnation)
            && (forall id :: ReleasedMarker(id, incarnation) !in t.log)
            && (forall r | r in t.procs && ClaimedBy(t.procs[r]) == Some(incarnation) :: t.procs[r].poisoned)
            && RecoveredNext(Live(t.disk).installs, incarnation)
  {
    ReachableHistory(s);
    assert StaticOk(s, p, s.procs[p]);
    var claim := s.procs[p].claim.value;
    DoomedWhen(s, p);
    DoomedRun(s, actions, t, claim.incarnation);
    AnnouncedLasts(s, p, actions, t);
    LiveGood(t);
    assert !HasReleased(At(t.disk, |t.disk.pending|).installs, claim.incarnation);
    forall id
      ensures ReleasedMarker(id, claim.incarnation) in t.log ==> HasReleased(Live(t.disk).installs, claim.incarnation)
    {
      ReleasedIsInstalled(t, id, claim.incarnation);
    }
    RecoveredUnlessReleased(Live(t.disk).installs, claim.incarnation);
  }

  // It installed itself, and its successor, if there is one, recovers from it.
  predicate RecoveredNext(installs: seq<Install>, incarnation: string) {
    exists i: nat | i < |installs| ::
      && installs[i].OwnedBy? && installs[i].incarnation == incarnation
      && (i + 1 < |installs| ==> installs[i + 1].OwnedBy? && installs[i + 1].recoveredFrom == Some(incarnation))
  }

  lemma RecoveredUnlessReleased(installs: seq<Install>, incarnation: string)
    requires GoodInstalls(installs) && HasInstalled(installs, incarnation)
    ensures RecoveredNext(installs, incarnation) <==> !HasReleased(installs, incarnation)
  {
    var i: nat :| i < |installs| && installs[i].OwnedBy? && installs[i].incarnation == incarnation;
    ReleaseFollowsInstall(installs, i);
    if i + 1 < |installs| && installs[i + 1].ReleasedBy? {
      assert UnreleasedBefore(installs, i + 1) == Some(installs[i + 1].incarnation);
    }
  }

  lemma {:induction false} LogGrowsRun(s: State, actions: seq<Action>, t: State)
    requires Run(s, actions) == Some(t)
    ensures LogGrows(s, t)
  {
    if actions != [] {
      var before := Run(s, actions[..|actions| - 1]).value;
      LogGrowsRun(s, actions[..|actions| - 1], before);
      LogGrowsStep(before, actions[|actions| - 1]);
    }
  }

  lemma AnnouncedLasts(s: State, p: nat, actions: seq<Action>, t: State)
    requires History(s) && p in s.procs && HasRun(s.procs[p].pc) && s.procs[p].claim.Some?
    requires Inv(t) && Run(s, actions) == Some(t)
    ensures HasInstalled(Live(t.disk).installs, s.procs[p].claim.value.incarnation)
  {
    LogGrowsRun(s, actions, t);
    var claim := s.procs[p].claim.value;
    var marker := AcquiredMarker(claim.stable.controlPlaneId, claim.incarnation);
    assert Announced(s, s.procs[p]);
    assert marker in t.log;
    assert Supports(t.disk.inodes, At(t.disk, |t.disk.pending|), marker);
  }
}
