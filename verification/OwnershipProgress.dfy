// No leftover ever stops an acquisition: whatever crashes came before, a
// process alone with the directory reaches ownership.
module OwnershipProgress {
  import opened Prelude
  import opened ControlPlaneNames
  import opened ControlPlaneDisk
  import opened OwnershipProtocol
  import opened OwnershipSafety
  import opened OwnershipSteps
  import opened OwnershipInvariant

  // No process ever stops, or announces that it stopped, because of what it
  // found in the directory.
  lemma NeverRefusesOnEvidence(s: State)
    requires Reachable(s)
    ensures forall marker | marker in s.log && marker.RefusedMarker? :: marker.reason == EnvironmentFault
    ensures forall p | p in s.procs && s.procs[p].pc.Closing? && s.procs[p].pc.ending.Refused? ::
      s.procs[p].pc.ending.reason == EnvironmentFault
  {
    ReachableInv(s);
    forall marker | marker in s.log && marker.RefusedMarker?
      ensures marker.reason == EnvironmentFault
    {
      assert Supported(s.disk, marker);
      assert Supports(s.disk.inodes, At(s.disk, 0), marker);
    }
    forall p | p in s.procs && s.procs[p].pc.Closing? && s.procs[p].pc.ending.Refused?
      ensures s.procs[p].pc.ending.reason == EnvironmentFault
    {
      assert StaticOk(s, p, s.procs[p]);
    }
  }

  /* ----------------------------- progress measure ----------------------- */

  function PhaseRank(phase: WritePhase): nat {
    match phase
    case ToCreate => 4
    case ToProtect => 3
    case ToWrite => 2
    case ToRename => 1
    case ToSync => 0
  }

  function Stage(pc: Pc): nat {
    match pc
    case OpenLock => 46
    case ProtectLock => 45
    case CheckLock => 44
    case TakeLock => 43
    case Inventory => 42
    case ReadRecords => 41
    case RemoveTemps => 40
    case WriteStable(phase) => 30 + PhaseRank(phase)
    case WriteOwner(phase) => 20 + PhaseRank(phase)
    case AnnounceRecovered => 16
    case AnnounceAcquired => 15
    case Running => 14
    case CheckRelease => 13
    case WriteRelease(phase) => 5 + PhaseRank(phase)
    case Closing(_) => 3
    case Announcing(_) => 2
    case Ended => 1
  }

  ghost predicate Alone(s: State, p: nat) {
    p in s.procs && forall r | r in s.procs && s.procs[r].locked :: r == p
  }

  predicate SameIncarnation(q: Process, q': Process) {
    && q'.poisoned == q.poisoned
    && (q.claim.Some? ==> q'.claim.Some? && q'.claim.value.incarnation == q.claim.value.incarnation)
  }

  // One step closer to `Running`, or, past it, to the release's directory sync.
  ghost predicate Closer(s: State, t: State, p: nat) {
    && p in s.procs && Alone(t, p)
    && (Stage(s.procs[p].pc) > 14 ==> Stage(t.procs[p].pc) >= 14)
    && (Stage(s.procs[p].pc) > 5 ==> Stage(t.procs[p].pc) >= 5)
    && (Stage(t.procs[p].pc) < Stage(s.procs[p].pc) ||
        (t.procs[p].pc == s.procs[p].pc == RemoveTemps && t.procs[p].temps < s.procs[p].temps))
    && SameIncarnation(s.procs[p], t.procs[p])
  }

  lemma LockFreeForOne(s: State, p: nat)
    requires Inv(s) && Alone(s, p) && s.procs[p].pc == TakeLock
    ensures s.procs[p].lockFile !in s.locks
  {
    assert StaticOk(s, p, s.procs[p]);
  }

  lemma CloserOpening(s: State, a: Action)
    requires a.Advance? && Enabled(s, a) && Alone(s, a.proc)
    requires s.procs[a.proc].pc == OpenLock || s.procs[a.proc].pc == ProtectLock
    ensures Closer(s, Next(s, a), a.proc)
  {
  }

  lemma CloserToLock(s: State, a: Action)
    requires Inv(s) && a.Advance? && Enabled(s, a) && Alone(s, a.proc)
    requires s.procs[a.proc].pc == CheckLock || s.procs[a.proc].pc == TakeLock
    ensures Closer(s, Next(s, a), a.proc)
  {
    var p := a.proc;
    if s.procs[p].pc == CheckLock {
      LockIsProtected(s, p);
    } else {
      LockFreeForOne(s, p);
    }
  }

  lemma CloserReading(s: State, a: Action)
    requires Inv(s) && a.Advance? && Enabled(s, a) && Alone(s, a.proc)
    requires s.procs[a.proc].pc == Inventory || s.procs[a.proc].pc == ReadRecords
    requires s.procs[a.proc].claim.None?
    ensures Closer(s, Next(s, a), a.proc)
  {
    var p := a.proc;
    if s.procs[p].pc == Inventory {
      LiveGood(s);
      GoodInventory(s.root, s.disk.inodes, s.used, Live(s.disk));
    } else {
      ClassifyGood(s, p);
    }
  }

  lemma CloserRemoving(s: State, a: Action)
    requires Inv(s) && a.Advance? && Enabled(s, a) && Alone(s, a.proc) && s.procs[a.proc].pc == RemoveTemps
    ensures Closer(s, Next(s, a), a.proc)
  {
    var p := a.proc;
    assert StaticOk(s, p, s.procs[p]);
    Holder(s, p, RemoveTemps);
    if s.procs[p].temps != {} {
      assert a.leftover in Temps(Names(s));
    }
  }

  lemma CloserWritingStable(s: State, a: Action)
    requires Inv(s) && a.Advance? && Enabled(s, a) && Alone(s, a.proc) && s.procs[a.proc].pc.WriteStable?
    ensures Closer(s, Next(s, a), a.proc)
  {
    var p := a.proc;
    assert StaticOk(s, p, s.procs[p]);
    Holder(s, p, s.procs[p].pc);
  }

  lemma CloserWritingOwner(s: State, a: Action)
    requires Inv(s) && a.Advance? && Enabled(s, a) && Alone(s, a.proc) && s.procs[a.proc].pc.WriteOwner?
    ensures Closer(s, Next(s, a), a.proc)
  {
    var p := a.proc;
    assert StaticOk(s, p, s.procs[p]);
    Holder(s, p, s.procs[p].pc);
  }

  lemma CloserReleasing(s: State, a: Action)
    requires Inv(s) && a.Advance? && Enabled(s, a) && Alone(s, a.proc)
    requires s.procs[a.proc].pc.WriteRelease? && s.procs[a.proc].pc.phase != ToSync
    ensures Closer(s, Next(s, a), a.proc)
  {
    var p := a.proc;
    assert StaticOk(s, p, s.procs[p]);
    Holder(s, p, s.procs[p].pc);
  }

  lemma CloserAnnouncing(s: State, a: Action)
    requires a.Advance? && Enabled(s, a) && Alone(s, a.proc) && s.procs[a.proc].claim.Some?
    requires s.procs[a.proc].pc == AnnounceRecovered ==> s.procs[a.proc].claim.value.recoveredFrom.Some?
    requires s.procs[a.proc].pc.AnnounceRecovered? || s.procs[a.proc].pc.AnnounceAcquired?
        || s.procs[a.proc].pc.CheckRelease?
    ensures Closer(s, Next(s, a), a.proc)
  {
  }

  lemma CloserStep(s: State, a: Action)
    requires Inv(s) && a.Advance? && Enabled(s, a) && Alone(s, a.proc)
    requires Stage(s.procs[a.proc].pc) > 5 && s.procs[a.proc].pc != Running
    requires Stage(s.procs[a.proc].pc) >= 41 ==> s.procs[a.proc].claim.None?
    ensures Closer(s, Next(s, a), a.proc)
  {
    var pc := s.procs[a.proc].pc;
    if Stage(pc) >= 45 {
      CloserOpening(s, a);
    } else if Stage(pc) >= 43 {
      CloserToLock(s, a);
    } else if Stage(pc) >= 41 {
      CloserReading(s, a);
    } else if pc == RemoveTemps {
      CloserRemoving(s, a);
    } else if pc.WriteStable? {
      CloserWritingStable(s, a);
    } else if pc.WriteOwner? {
      CloserWritingOwner(s, a);
    } else if pc.WriteRelease? {
      CloserReleasing(s, a);
    } else {
      Holder(s, a.proc, pc) by { assert StaticOk(s, a.proc, s.procs[a.proc]); }
      CloserAnnouncing(s, a);
    }
  }

  /* --------------------------- driving one process ---------------------- */

  lemma {:induction false} RunAppend(s: State, xs: seq<Action>, ys: seq<Action>, t: State)
    requires Run(s, xs) == Some(t)
    ensures Run(s, xs + ys) == Run(t, ys)
  {
    if ys == [] {
      assert xs + ys == xs;
    } else {
      RunAppend(s, xs, ys[..|ys| - 1], t);
      assert (xs + ys)[..|xs + ys| - 1] == xs + ys[..|ys| - 1];
    }
  }

  lemma RunOne(s: State, a: Action)
    requires Enabled(s, a)
    ensures Run(s, [a]) == Some(Next(s, a))
  {
    assert [a][..0] == [];
    assert Run(s, []) == Some(s);
  }

  lemma FreshFile(files: set<FileId>) returns (file: FileId)
    ensures file !in files
  {
    file := 0;
    var rest := files;
    while rest != {}
      invariant forall f | f in files && f !in rest :: f < file
      decreases |rest|
    {
      var f :| f in rest;
      rest := rest - {f};
      if f >= file { file := f + 1; }
    }
  }

  // The last step a drive to this process counter takes it to.
  predicate Goal(pc: Pc) {
    pc == Running || pc == WriteRelease(ToSync)
  }

  predicate FreshIds(s: State, p: nat, incarnation: string, controlPlaneId: string) {
    p in s.procs && Stage(s.procs[p].pc) >= 41 ==>
      && s.procs[p].claim.None?
      && ValidUuid(incarnation) && incarnation !in s.used
      && ValidUuid(controlPlaneId) && controlPlaneId !in s.used && controlPlaneId != incarnation
  }

  lemma AdvanceKeepsIdsFresh(s: State, a: Action)
    requires a.Advance? && Enabled(s, a) && FreshIds(s, a.proc, a.incarnation, a.controlPlaneId)
    requires Closer(s, Next(s, a), a.proc)
    ensures FreshIds(Next(s, a), a.proc, a.incarnation, a.controlPlaneId)
  {
    var pc := s.procs[a.proc].pc;
    if Stage(pc) >= 42 {
      assert pc == OpenLock || pc == ProtectLock || pc == CheckLock || pc == TakeLock || pc == Inventory;
      assert Next(s, a).used == s.used && Next(s, a).procs[a.proc].claim.None?;
    }
  }

  lemma NobodyLocked(s: State)
    requires Inv(s) && s.locks == map[]
    ensures forall r | r in s.procs :: !s.procs[r].locked
  {
    forall r | r in s.procs
      ensures !s.procs[r].locked
    {
      assert StaticOk(s, r, s.procs[r]);
    }
  }

  lemma DriveStep(s: State, p: nat, incarnation: string, controlPlaneId: string, now: int)
      returns (a: Action, t: State)
    requires Inv(s) && Alone(s, p) && Stage(s.procs[p].pc) > 5 && s.procs[p].pc != Running
    requires FreshIds(s, p, incarnation, controlPlaneId)
    ensures a.Advance? && a.proc == p && Run(s, [a]) == Some(t)
    ensures Inv(t) && Closer(s, t, p) && FreshIds(t, p, incarnation, controlPlaneId)
  {
    var file := FreshFile(s.disk.inodes.Keys);
    var leftover := LockName;
    if s.procs[p].pc == RemoveTemps && s.procs[p].temps != {} {
      leftover :| leftover in s.procs[p].temps;
    }
    a := Advance(p, file, incarnation, controlPlaneId, now, leftover);
    t := Next(s, a);
    CloserStep(s, a);
    NextKeeps(s, a);
    AdvanceKeepsIdsFresh(s, a);
    RunOne(s, a);
  }

  lemma RunFirst(s: State, a: Action, rest: seq<Action>, t: State)
    requires Enabled(s, a) && Run(Next(s, a), rest) == Some(t)
    ensures Run(s, [a] + rest) == Some(t)
  {
    RunOne(s, a);
    RunAppend(s, [a], rest, Next(s, a));
  }

  lemma {:induction false} Drive(s: State, p: nat, incarnation: string, controlPlaneId: string, now: int)
      returns (actions: seq<Action>, t: State)
    requires Inv(s) && Alone(s, p) && Stage(s.procs[p].pc) >= 5
    requires FreshIds(s, p, incarnation, controlPlaneId)
    ensures Run(s, actions) == Some(t) && Inv(t) && Alone(t, p)
    ensures forall a | a in actions :: a.Advance? && a.proc == p
    ensures t.procs[p].pc == if Stage(s.procs[p].pc) >= 14 then Running else WriteRelease(ToSync)
    ensures SameIncarnation(s.procs[p], t.procs[p])
    decreases Stage(s.procs[p].pc), s.procs[p].temps
  {
    if Goal(s.procs[p].pc) {
      actions, t := [], s;
    } else {
      var a, next := DriveStep(s, p, incarnation, controlPlaneId, now);
      var rest, u := Drive(next, p, incarnation, controlPlaneId, now);
      RunAppend(s, [a], rest, next);
      actions, t := [a] + rest, u;
    }
  }

  // Acquiring always succeeds: after any reachable history, with the lock free,
  // a new process on the same root has a run of its own that ends in ownership.
  lemma AcquisitionSucceeds(s: State, p: nat, pid: nat, hostname: string, umask: Mode,
                            incarnation: string, controlPlaneId: string, now: int)
      returns (actions: seq<Action>, t: State)
    requires Reachable(s) && s.locks == map[] && p !in s.procs
    requires pid > 0 && hostname != "" && KeepsOwnerAccess(umask)
    requires ValidUuid(incarnation) && incarnation !in s.used
    requires ValidUuid(controlPlaneId) && controlPlaneId !in s.used && controlPlaneId != incarnation
    ensures Run(s, [Spawn(p, pid, hostname, umask)] + actions) == Some(t)
    ensures forall a | a in actions :: a.Advance? && a.proc == p
    ensures Inv(t) && p in t.procs && t.procs[p].pc == Running && t.procs[p].locked && !t.procs[p].poisoned
    ensures Alone(t, p)
  {
    ReachableInv(s);
    var spawn := Spawn(p, pid, hostname, umask);
    NextKeeps(s, spawn);
    var spawned := Next(s, spawn);
    NobodyLocked(s);
    actions, t := Drive(spawned, p, incarnation, controlPlaneId, now);
    RunOne(s, spawn);
    RunAppend(s, [spawn], actions, spawned);
    assert StaticOk(t, p, t.procs[p]);
  }

  // The lock is free again once its holder is gone, however it went.
  lemma CrashesFreeTheLock(s: State, a: Action)
    requires Reachable(s) && Enabled(s, a)
    requires a.PowerLoss? || (a.Kill? && s.procs[a.proc].locked)
    ensures Next(s, a).locks == map[]
  {
    ReachableInv(s);
    if a.Kill? {
      forall file | file in s.locks
        ensures file == s.procs[a.proc].lockFile
      {
        OneHolder(s, a.proc, s.locks[file]);
      }
    }
  }

  /* --------------------- what a narrow umask would break ----------------- */

  lemma Extend(s: State, actions: seq<Action>, t: State, a: Action)
    requires Run(s, actions) == Some(t) && Enabled(t, a)
    ensures Run(s, actions + [a]) == Some(Next(t, a))
  {
    assert (actions + [a])[..|actions|] == actions;
  }

  // A lock file that was created but not yet protected, by a process no longer there.
  ghost predicate Abandoned(s: State, umask: Mode) {
    && s.locks == map[] && s.procs == map[]
    && LockName in Names(s) && Names(s)[LockName] in s.disk.inodes
    && s.disk.inodes[Names(s)[LockName]] == Inode(true, true, CreationMode(umask), CreationMode(umask), Torn, false)
  }

  predicate SpawnsUse(actions: seq<Action>, umask: Mode) {
    forall a | a in actions && a.Spawn? :: a.umask == umask
  }

  // From an empty directory, a process killed at that moment leads there, whatever
  // its umask.
  lemma AbandonLock(s: State, umask: Mode) returns (actions: seq<Action>, t: State)
    requires s.disk == Disk(Entry(map[], []), [], map[]) && s.locks == map[] && s.procs == map[]
    ensures Run(s, actions) == Some(t) && Abandoned(t, umask) && SpawnsUse(actions, umask)
  {
    var spawn, create, kill := Spawn(0, 1, "a", umask), Advance(0, 7, "", "", 0, LockName), Kill(0);
    var mode := CreationMode(umask);
    var s1 := Next(s, spawn);
    AtAppend(s.disk.(inodes := map[7 := Inode(true, true, mode, mode, Torn, false)]), Link(LockName, 7));
    assert s.disk.pending[..0] == [];
    var s2 := Next(s1, create);
    RunOne(s, spawn);
    Extend(s, [spawn], s1, create);
    Extend(s, [spawn] + [create], s2, kill);
    actions, t := [spawn] + [create] + [kill], Next(s2, kill);
  }

  predicate TurnedAway(q: Process, file: FileId) {
    && !q.locked
    && (q.pc == OpenLock || (q.pc == CheckLock && q.lockFile == file) || q.pc == Ended
        || ((q.pc.Closing? || q.pc.Announcing?) && q.pc.ending.Refused?))
  }

  // The lock file is not protected, and nobody has got past it.
  ghost predicate Stranded(s: State, file: FileId) {
    && s.locks == map[]
    && LockName in Names(s) && Names(s)[LockName] == file && file in s.disk.inodes
    && s.disk.inodes[file].mode != PROTECTED && s.disk.inodes[file].birthMode != PROTECTED
    && forall p | p in s.procs :: TurnedAway(s.procs[p], file)
  }

  lemma StrandedStep(s: State, a: Action, file: FileId)
    requires Stranded(s, file) && Enabled(s, a) && (a.PowerLoss? ==> s.disk.pending == [])
    ensures Stranded(Next(s, a), file) && Next(s, a).disk.pending == s.disk.pending
  {
    if a.PowerLoss? {
      assert s.disk.pending[..0] == [];
    } else if !a.Spawn? {
      assert TurnedAway(s.procs[a.proc], file);
    }
  }

  predicate Lossless(actions: seq<Action>) {
    forall a | a in actions :: !a.PowerLoss?
  }

  lemma {:induction false} StrandedRun(s: State, actions: seq<Action>, t: State, file: FileId)
    requires Stranded(s, file) && Run(s, actions) == Some(t) && (s.disk.pending == [] || Lossless(actions))
    ensures Stranded(t, file) && t.disk.pending == s.disk.pending
  {
    if actions != [] {
      var before := Run(s, actions[..|actions| - 1]).value;
      StrandedRun(s, actions[..|actions| - 1], before, file);
      StrandedStep(before, actions[|actions| - 1], file);
    }
  }

  lemma AbandonedStrands(s: State, umask: Mode)
    requires Abandoned(s, umask)
    ensures CreationMode(umask) == PROTECTED <==> KeepsOwnerAccess(umask)
    ensures !KeepsOwnerAccess(umask) ==> Stranded(s, Names(s)[LockName])
  {
    assert OwnerRead in PROTECTED && OwnerWrite in PROTECTED;
  }

  // An abandoned lock file that is not protected stays so over every run, and
  // every process that ever comes to check it refuses; unless a power loss
  // undoes its creation.
  lemma StrandedForGood(s: State, umask: Mode, actions: seq<Action>, t: State, a: Action)
    requires Abandoned(s, umask) && !KeepsOwnerAccess(umask)
    requires Run(s, actions) == Some(t) && (s.disk.pending == [] || Lossless(actions))
    requires a.Advance? && Enabled(t, a) && t.procs[a.proc].pc == CheckLock
    ensures LockName in Names(t) && Names(t)[LockName] == Names(s)[LockName]
    ensures t.locks == map[]
    ensures Next(t, a).procs[a.proc].pc == Closing(Refused(BadEvidence(LockNotProtected)))
  {
    AbandonedStrands(s, umask);
    StrandedRun(s, actions, t, Names(s)[LockName]);
    assert TurnedAway(t.procs[a.proc], Names(s)[LockName]);
  }

  // While no power loss undoes its creation, nobody ever takes the lock that a
  // process killed between creating and protecting it left behind, exactly when
  // that process's umask took away its own access.
  lemma NarrowUmaskStrandsLock(s: State, umask: Mode)
    requires Abandoned(s, umask)
    ensures !KeepsOwnerAccess(umask) <==>
            forall actions | Lossless(actions) && Run(s, actions).Some? :: Run(s, actions).value.locks == map[]
  {
    AbandonedStrands(s, umask);
    if KeepsOwnerAccess(umask) {
      var actions, t := TakeAbandoned(s, umask);
    } else {
      forall actions | Lossless(actions) && Run(s, actions).Some?
        ensures Run(s, actions).value.locks == map[]
      {
        StrandedRun(s, actions, Run(s, actions).value, Names(s)[LockName]);
      }
    }
  }

  lemma TakeAbandoned(s: State, umask: Mode) returns (actions: seq<Action>, t: State)
    requires Abandoned(s, umask) && KeepsOwnerAccess(umask)
    ensures Run(s, actions) == Some(t) && Lossless(actions) && t.locks != map[]
  {
    AbandonedStrands(s, umask);
    var file := FreshFile(s.disk.inodes.Keys);
    var spawn, step := Spawn(0, 1, "b", {}), Advance(0, file, "", "", 0, LockName);
    var s1 := Next(s, spawn);
    RunOne(s, spawn);
    Extend(s, [spawn], s1, step);
    var s2 := Next(s1, step);
    Extend(s, [spawn] + [step], s2, step);
    var s3 := Next(s2, step);
    Extend(s, [spawn] + [step] + [step], s3, step);
    actions, t := [spawn] + [step] + [step] + [step], Next(s3, step);
    assert Names(s)[LockName] in t.locks;
  }

  /* ----------------- exactly the umasks that are safe -------------------- */

  predicate RefusedOnEvidence(s: State) {
    exists marker | marker in s.log :: marker.RefusedMarker? && marker.reason.BadEvidence?
  }

  // The next process is turned away.
  lemma TurnAway(s: State, umask: Mode) returns (actions: seq<Action>, t: State)
    requires Abandoned(s, umask) && !KeepsOwnerAccess(umask)
    ensures Run(s, actions) == Some(t) && SpawnsUse(actions, umask)
    ensures 0 in t.procs && t.procs[0].pc == Closing(Refused(BadEvidence(LockNotProtected)))
  {
    AbandonedStrands(s, umask);
    var file := FreshFile(s.disk.inodes.Keys);
    var spawn, step := Spawn(0, 1, "b", umask), Advance(0, file, "", "", 0, LockName);
    var s1 := Next(s, spawn);
    RunOne(s, spawn);
    Extend(s, [spawn], s1, step);
    var s2 := Next(s1, step);
    Extend(s, [spawn] + [step], s2, step);
    actions, t := [spawn] + [step] + [step], Next(s2, step);
  }

  // And says so.
  lemma SayRefused(s: State) returns (actions: seq<Action>, t: State)
    requires 0 in s.procs && s.procs[0].pc == Closing(Refused(BadEvidence(LockNotProtected)))
    ensures Run(s, actions) == Some(t) && (forall a | a in actions :: !a.Spawn?) && RefusedOnEvidence(t)
  {
    var file := FreshFile(s.disk.inodes.Keys);
    var step := Advance(0, file, "", "", 0, LockName);
    RunOne(s, step);
    var s1 := Next(s, step);
    Extend(s, [step], s1, step);
    actions, t := [step] + [step], Next(s1, step);
    assert RefusedMarker(BadEvidence(LockNotProtected)) in t.log;
  }

  lemma RefuseAbandoned(s: State, umask: Mode) returns (actions: seq<Action>, t: State)
    requires Abandoned(s, umask) && !KeepsOwnerAccess(umask)
    ensures Run(s, actions) == Some(t) && SpawnsUse(actions, umask) && RefusedOnEvidence(t)
  {
    var before, u := TurnAway(s, umask);
    var after, v := SayRefused(u);
    RunAppend(s, before, after, u);
    actions, t := before + after, v;
  }

  function ZeroDigest(): (digest: string)
    ensures ValidDigest(digest)
  {
    seq(64, _ => '0')
  }

  lemma EmptyIsInitial(s: State)
    requires s.disk == Disk(Entry(map[], []), [], map[]) && s.locks == map[] && s.procs == map[] && s.log == []
    requires s.root.path != "" && ValidDigest(s.root.digest)
    ensures Initial(s)
  {
    assert At(s.disk, 0) == Entry(map[], []);
  }

  lemma EvidenceRefused(umask: Mode) returns (start: State, actions: seq<Action>)
    requires !KeepsOwnerAccess(umask)
    ensures Initial(start) && SpawnsUse(actions, umask)
    ensures Run(start, actions).Some? && RefusedOnEvidence(Run(start, actions).value)
  {
    start := State(Root("/", ZeroDigest(), 0), Disk(Entry(map[], []), [], map[]), map[], map[], {}, []);
    EmptyIsInitial(start);
    var before, s := AbandonLock(start, umask);
    var rest, t := RefuseAbandoned(s, umask);
    RunAppend(start, before, rest, s);
    actions := before + rest;
  }

  // Over all histories of processes with one umask, from any directory earlier
  // ones may have left and through any kills and power losses: none ever refuses
  // on what it found exactly when that umask keeps the owner's access.
  lemma EvidenceRefusedIff(umask: Mode)
    ensures KeepsOwnerAccess(umask) <==>
            forall start: State, actions: seq<Action> |
              Initial(start) && SpawnsUse(actions, umask) && Run(start, actions).Some? ::
              !RefusedOnEvidence(Run(start, actions).value)
  {
    if KeepsOwnerAccess(umask) {
      forall start: State, actions: seq<Action> |
        Initial(start) && SpawnsUse(actions, umask) && Run(start, actions).Some?
        ensures !RefusedOnEvidence(Run(start, actions).value)
      {
        assert forall a | a in actions :: Ordinary(a);
        assert Reachable(Run(start, actions).value);
        NeverRefusesOnEvidence(Run(start, actions).value);
      }
    } else {
      var start, actions := EvidenceRefused(umask);
    }
  }
}
