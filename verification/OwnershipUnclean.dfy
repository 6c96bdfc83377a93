// Releases that end unclean: which of them leave the released record behind,
// and who recovers from the others.
module OwnershipUnclean {
  import opened Prelude
  import opened ControlPlaneNames
  import opened ControlPlaneDisk
  import opened OwnershipProtocol
  import opened OwnershipSafety
  import opened OwnershipSteps
  import opened OwnershipInvariant
  import opened OwnershipTheorems
  import opened OwnershipProgress
  import opened OwnershipPoison

  /* --------------------- where a release can go wrong -------------------- */

  // A failing call here turns the release unclean.
  predicate MayEndUnclean(pc: Pc) {
    Releasing(pc) || pc == Closing(CleanRelease)
  }

  // The released record is in place already.
  predicate PastRename(pc: Pc) {
    pc == WriteRelease(ToSync) || pc == Closing(CleanRelease)
  }

  function IncarnationOf(q: Process): string {
    if q.claim.Some? then q.claim.value.incarnation else ""
  }

  lemma FaultDooms(s: State, p: nat, transport: bool)
    requires Inv(s) && History(s) && p in s.procs && Releasing(s.procs[p].pc) && s.procs[p].pc != WriteRelease(ToSync)
    ensures s.procs[p].claim.Some? && Doomed(Next(s, Fault(p, transport)), IncarnationOf(s.procs[p]))
    ensures !HasReleased(Live(s.disk).installs, IncarnationOf(s.procs[p]))
  {
    assert StaticOk(s, p, s.procs[p]);
    DoomedWhen(s, p);
    FaultChangesNothing(s, Fault(p, transport));
    assert !HasReleased(At(s.disk, |s.disk.pending|).installs, IncarnationOf(s.procs[p]));
  }

  lemma FailedAfterRename(s: State, p: nat)
    requires Inv(s) && p in s.procs && PastRename(s.procs[p].pc)
    ensures s.procs[p].claim.Some? && HasReleased(Live(s.disk).installs, IncarnationOf(s.procs[p]))
    ensures s.procs[p].pc == Closing(CleanRelease) ==> HasReleased(s.disk.durable.installs, IncarnationOf(s.procs[p]))
  {
    assert StaticOk(s, p, s.procs[p]);
    if s.procs[p].pc == WriteRelease(ToSync) {
      Holder(s, p, s.procs[p].pc);
    } else {
      var claim := s.procs[p].claim.value;
      var marker := ReleasedMarker(claim.stable.controlPlaneId, claim.incarnation);
      assert marker in Earned(s.procs[p]);
      assert Supported(s.disk, marker);
      assert Supports(s.disk.inodes, At(s.disk, 0), marker);
      assert Supports(s.disk.inodes, At(s.disk, |s.disk.pending|), marker);
      assert s.disk.pending[..0] == [];
    }
  }

  // A release that fails leaves its released record in the directory exactly
  // when it fails after its rename: in the directory sync or in the cleanup. One
  // that fails before is recovered from whatever happens next, and one whose
  // cleanup fails is never recovered from.
  lemma FailedReleaseRecoveredIff(s: State, p: nat, transport: bool, actions: seq<Action>, t: State)
    requires Reachable(s) && p in s.procs && MayEndUnclean(s.procs[p].pc)
    requires (forall a | a in actions :: Ordinary(a)) && Run(Next(s, Fault(p, transport)), actions) == Some(t)
    ensures s.procs[p].claim.Some?
    ensures PastRename(s.procs[p].pc) <==>
            HasReleased(Live(Next(s, Fault(p, transport)).disk).installs, s.procs[p].claim.value.incarnation)
    ensures !PastRename(s.procs[p].pc) ==> RecoveredNext(Live(t.disk).installs, s.procs[p].claim.value.incarnation)
    ensures s.procs[p].pc == Closing(CleanRelease) ==>
            HasReleased(Live(t.disk).installs, s.procs[p].claim.value.incarnation)
  {
    ReachableHistory(s);
    FaultChangesNothing(s, Fault(p, transport));
    if PastRename(s.procs[p].pc) {
      FailedAfterRename(s, p);
      DurableRun(Next(s, Fault(p, transport)), actions, t);
      InstallsGrow(t.disk, 0, |t.disk.pending|);
      assert t.disk.pending[..0] == [];
    } else {
      FaultDooms(s, p, transport);
      DoomedIsRecovered(s, p, transport, actions, t);
    }
  }

  lemma DoomedIsRecovered(s: State, p: nat, transport: bool, actions: seq<Action>, t: State)
    requires Inv(s) && History(s) && p in s.procs && Releasing(s.procs[p].pc) && s.procs[p].claim.Some?
    requires Doomed(Next(s, Fault(p, transport)), s.procs[p].claim.value.incarnation)
    requires (forall a | a in actions :: Ordinary(a)) && Run(Next(s, Fault(p, transport)), actions) == Some(t)
    ensures RecoveredNext(Live(t.disk).installs, s.procs[p].claim.value.incarnation)
  {
    var fault, incarnation := Fault(p, transport), s.procs[p].claim.value.incarnation;
    NextKeeps(s, fault);
    DoomedRun(Next(s, fault), actions, t, incarnation);
    RunFirst(s, fault, actions, t);
    AnnouncedLasts(s, p, [fault] + actions, t);
    DoomedNow(t, incarnation);
  }

  lemma DoomedNow(s: State, incarnation: string)
    requires Inv(s) && Doomed(s, incarnation) && HasInstalled(Live(s.disk).installs, incarnation)
    ensures RecoveredNext(Live(s.disk).installs, incarnation)
  {
    NotReleasedNow(s, incarnation);
    LiveGood(s);
    RecoveredUnlessReleased(Live(s.disk).installs, incarnation);
  }

  lemma NotReleasedNow(s: State, incarnation: string)
    requires NeverReleased(s.disk, incarnation)
    ensures !HasReleased(Live(s.disk).installs, incarnation)
  {
    assert !HasReleased(At(s.disk, |s.disk.pending|).installs, incarnation);
  }

  /* ------------------- what is durable is never undone ------------------- */

  lemma DurableWrite(disk: Disk, umask: Mode, file: FileId, temp: Name, destination: RecordFile, value: JsonValue,
                     installs: seq<Install>, phase: WritePhase)
    ensures disk.durable.installs <=
            WriteDisk(disk, umask, file, temp, destination, value, installs, phase).durable.installs
  {
    InstallsGrow(disk, 0, |disk.pending|);
    assert disk.pending[..0] == [];
  }

  lemma DurableClaimStep(s: State, a: Action)
    requires a.Advance? && Enabled(s, a) && s.procs[a.proc].claim.Some?
    ensures s.disk.durable.installs <= ClaimStep(s, a.proc, s.procs[a.proc], a).disk.durable.installs
  {
    var q := s.procs[a.proc];
    var claim := q.claim.value;
    match q.pc
    case WriteStable(phase) =>
      DurableWrite(s.disk, q.umask, Target(q, a.file, phase), Own(q, claim, StableFile), StableFile,
                   StableJson(claim.stable), [], phase);
    case WriteOwner(phase) =>
      DurableWrite(s.disk, q.umask, Target(q, a.file, phase), Own(q, claim, OwnerFile), OwnerFile,
                   OwnerJson(OwnedRecord(s.root, q, claim)), [OwnedBy(claim.incarnation, claim.recoveredFrom)], phase);
    case WriteRelease(phase) =>
      DurableWrite(s.disk, q.umask, Target(q, a.file, phase), Own(q, claim, OwnerFile), OwnerFile,
                   OwnerJson(ReleasedRecord(s.root, q, claim, a.now)), [ReleasedBy(claim.incarnation)], phase);
    case _ =>
  }

  lemma DurableStep(s: State, a: Action)
    requires Enabled(s, a)
    ensures s.disk.durable.installs <= Next(s, a).disk.durable.installs
  {
    if a.PowerLoss? {
      InstallsGrow(s.disk, 0, a.kept);
      assert s.disk.pending[..0] == [];
    } else if a.Fault? {
      FaultChangesNothing(s, a);
    } else if a.Advance? && 5 <= Stage(s.procs[a.proc].pc) <= 40 && s.procs[a.proc].claim.Some? {
      DurableClaimStep(s, a);
    }
  }

  lemma {:induction false} DurableRun(s: State, actions: seq<Action>, t: State)
    requires Run(s, actions) == Some(t)
    ensures s.disk.durable.installs <= t.disk.durable.installs
  {
    if actions != [] {
      var before := Run(s, actions[..|actions| - 1]).value;
      DurableRun(s, actions[..|actions| - 1], before);
      DurableStep(before, actions[|actions| - 1]);
    }
  }

  /* ----------------------- every unclean marker -------------------------- */

  // An unclean release was announced by an incarnation that had acquired, and
  // nobody is left who could still release it.
  ghost predicate UncleanBehind(s: State, id: string, incarnation: string) {
    && AcquiredMarker(id, incarnation) in s.log && incarnation in s.used
    && forall p | p in s.procs && ClaimedBy(s.procs[p]) == Some(incarnation) :: Spent(s.procs[p])
  }

  ghost predicate UncleanHistory(s: State) {
    forall id, incarnation | UncleanMarker(id, incarnation) in s.log :: UncleanBehind(s, id, incarnation)
  }

  lemma NewUncleanMarker(s: State, a: Action, id: string, incarnation: string)
    requires Enabled(s, a)
    requires UncleanMarker(id, incarnation) in Next(s, a).log && UncleanMarker(id, incarnation) !in s.log
    ensures a.Advance? && s.procs[a.proc].pc == Announcing(UncleanRelease) && s.procs[a.proc].claim.Some?
    ensures s.procs[a.proc].claim.value.stable.controlPlaneId == id && IncarnationOf(s.procs[a.proc]) == incarnation
  {
    if a.Advance? && 5 <= Stage(s.procs[a.proc].pc) <= 40 && s.procs[a.proc].claim.Some? {
      ClaimStepMarkers(s, a, UncleanMarker(id, incarnation));
    }
  }

  lemma ClaimStepMarkers(s: State, a: Action, marker: Marker)
    requires a.Advance? && Enabled(s, a) && s.procs[a.proc].claim.Some? && marker.UncleanMarker?
    ensures marker in ClaimStep(s, a.proc, s.procs[a.proc], a).log ==> marker in s.log
  {
  }

  lemma AnnouncingUnclean(s: State, a: Action)
    requires Inv(s) && History(s) && a.Advance? && Enabled(s, a)
    requires s.procs[a.proc].pc == Announcing(UncleanRelease) && s.procs[a.proc].claim.Some?
    ensures UncleanBehind(Next(s, a), s.procs[a.proc].claim.value.stable.controlPlaneId, IncarnationOf(s.procs[a.proc]))
  {
    assert StaticOk(s, a.proc, s.procs[a.proc]);
    assert Announced(s, s.procs[a.proc]) && UncleanPoisoned(s.procs[a.proc]);
  }

  lemma SpentProcs(s: State, a: Action, incarnation: string, p: nat)
    requires Inv(s) && incarnation in s.used && Enabled(s, a)
    requires forall r | r in s.procs && ClaimedBy(s.procs[r]) == Some(incarnation) :: Spent(s.procs[r])
    requires p in Next(s, a).procs && ClaimedBy(Next(s, a).procs[p]) == Some(incarnation)
    ensures Spent(Next(s, a).procs[p])
  {
    ClaimsFollowStep(s, a);
    if a.PowerLoss? || a.proc != p { BystanderUntouched(s, a, p); } else { SpentStays(s, a); }
  }

  lemma UncleanStep(s: State, a: Action)
    requires Inv(s) && History(s) && UncleanHistory(s) && Enabled(s, a)
    ensures UncleanHistory(Next(s, a))
  {
    var t := Next(s, a);
    LogGrowsStep(s, a);
    ClaimsFollowStep(s, a);
    forall id, incarnation | UncleanMarker(id, incarnation) in t.log
      ensures UncleanBehind(t, id, incarnation)
    {
      if UncleanMarker(id, incarnation) in s.log {
        assert UncleanBehind(s, id, incarnation);
        forall p | p in t.procs && ClaimedBy(t.procs[p]) == Some(incarnation)
          ensures Spent(t.procs[p])
        {
          SpentProcs(s, a, incarnation, p);
        }
      } else {
        NewUncleanMarker(s, a, id, incarnation);
        AnnouncingUnclean(s, a);
      }
    }
  }

  lemma {:induction false} RunUnclean(start: State, actions: seq<Action>, s: State)
    requires Inv(start) && History(start) && UncleanHistory(start)
    requires (forall a | a in actions :: Ordinary(a)) && Run(start, actions) == Some(s)
    ensures Inv(s) && History(s) && UncleanHistory(s)
  {
    RunHistory(start, actions, s);
    if actions != [] {
      var before := Run(start, actions[..|actions| - 1]).value;
      RunUnclean(start, actions[..|actions| - 1], before);
      UncleanStep(before, actions[|actions| - 1]);
    }
  }

  lemma ReachableUnclean(s: State)
    requires Reachable(s)
    ensures Inv(s) && History(s) && UncleanHistory(s)
  {
    var start: State, actions: seq<Action> :|
      Initial(start) && (forall a | a in actions :: Ordinary(a)) && Run(start, actions) == Some(s);
    InitialInv(start);
    RunUnclean(start, actions, s);
  }

  // Some ordinary run leads from one state to the other.
  ghost predicate Continues(s: State, t: State) {
    exists actions :: (forall a | a in actions :: Ordinary(a)) && Run(s, actions) == Some(t)
  }

  lemma AnnouncedIsInstalled(s: State, id: string, incarnation: string)
    requires Inv(s) && AcquiredMarker(id, incarnation) in s.log
    ensures HasInstalled(Live(s.disk).installs, incarnation) && GoodInstalls(Live(s.disk).installs)
  {
    LiveGood(s);
    assert Supports(s.disk.inodes, At(s.disk, |s.disk.pending|), AcquiredMarker(id, incarnation));
  }

  // After an unclean marker, in every continuation the next to install itself
  // recovers from that incarnation or its released record is in place.
  lemma UncleanThen(s: State, id: string, incarnation: string, t: State)
    requires Inv(s) && History(s) && UncleanHistory(s) && UncleanMarker(id, incarnation) in s.log && Continues(s, t)
    ensures RecoveredNext(Live(t.disk).installs, incarnation) <==> !HasReleased(Live(t.disk).installs, incarnation)
    ensures !HasReleased(Live(s.disk).installs, incarnation) ==> !HasReleased(Live(t.disk).installs, incarnation)
    ensures HasReleased(s.disk.durable.installs, incarnation) ==> HasReleased(Live(t.disk).installs, incarnation)
  {
    var actions :| (forall a | a in actions :: Ordinary(a)) && Run(s, actions) == Some(t);
    assert UncleanBehind(s, id, incarnation);
    RunHistory(s, actions, t);
    LogGrowsRun(s, actions, t);
    AnnouncedIsInstalled(t, id, incarnation);
    RecoveredUnlessReleased(Live(t.disk).installs, incarnation);
    DurableRun(s, actions, t);
    InstallsGrow(t.disk, 0, |t.disk.pending|);
    assert t.disk.pending[..0] == [];
    if !HasReleased(Live(s.disk).installs, incarnation) {
      NeverReleasedYet(s, incarnation);
      DoomedRun(s, actions, t, incarnation);
      NotReleasedNow(t, incarnation);
    }
  }

  lemma NeverReleasedYet(s: State, incarnation: string)
    requires !HasReleased(Live(s.disk).installs, incarnation)
    ensures NeverReleased(s.disk, incarnation)
  {
    forall k: nat | k <= |s.disk.pending|
      ensures !HasReleased(At(s.disk, k).installs, incarnation)
    {
      InstallsGrow(s.disk, k, |s.disk.pending|);
    }
  }

  // A power loss that keeps none of the operations since the last sync.
  lemma LoseUnsynced(s: State) returns (t: State)
    requires Inv(s)
    ensures Continues(s, t) && Live(t.disk) == s.disk.durable
  {
    var loss := PowerLoss(0, s.disk.inodes);
    t := Next(s, loss);
    RunOne(s, loss);
    assert forall a | a in [loss] :: Ordinary(a);
    assert s.disk.pending[..0] == [];
  }

  // For every unclean release announced in any run: its incarnation is
  // recovered from in every continuation exactly when its released record is
  // not in place, and in none exactly when that record is durable. In between,
  // renamed but not yet synced, it turns on whether a power loss undoes the rename.
  lemma UncleanRecoveryExact(s: State, id: string, incarnation: string)
    requires Reachable(s) && UncleanMarker(id, incarnation) in s.log
    ensures (forall t | Continues(s, t) :: RecoveredNext(Live(t.disk).installs, incarnation)) <==>
            !HasReleased(Live(s.disk).installs, incarnation)
    ensures (forall t | Continues(s, t) :: !RecoveredNext(Live(t.disk).installs, incarnation)) <==>
            HasReleased(s.disk.durable.installs, incarnation)
  {
    ReachableUnclean(s);
    forall t | Continues(s, t)
      ensures RecoveredNext(Live(t.disk).installs, incarnation) <==> !HasReleased(Live(t.disk).installs, incarnation)
      ensures !HasReleased(Live(s.disk).installs, incarnation) ==> !HasReleased(Live(t.disk).installs, incarnation)
      ensures HasReleased(s.disk.durable.installs, incarnation) ==> HasReleased(Live(t.disk).installs, incarnation)
    {
      UncleanThen(s, id, incarnation, t);
    }
    assert Continues(s, s) by { assert Run(s, []) == Some(s); }
    var lost := LoseUnsynced(s);
  }

  /* ---------------- unclean, and yet released: two witnesses ------------- */

  // A running, unpoisoned process reaches the directory sync of its release.
  lemma ReleaseUnderway(s: State, p: nat, incarnation: string, controlPlaneId: string, now: int)
      returns (actions: seq<Action>, t: State)
    requires Inv(s) && Alone(s, p) && s.procs[p].pc == Running && !s.procs[p].poisoned
    ensures Run(s, actions) == Some(t) && Inv(t) && p in t.procs && t.procs[p].pc == WriteRelease(ToSync)
  {
    var begin := BeginRelease(p);
    NextKeeps(s, begin);
    var rest, u := Drive(Next(s, begin), p, incarnation, controlPlaneId, now);
    RunFirst(s, begin, rest, u);
    actions, t := [begin] + rest, u;
  }

  // From there it may go on to the cleanup.
  lemma ReleaseSynced(s: State, p: nat) returns (actions: seq<Action>, t: State)
    requires Inv(s) && p in s.procs && s.procs[p].pc == WriteRelease(ToSync)
    ensures Run(s, actions) == Some(t) && Inv(t) && p in t.procs && t.procs[p].pc == Closing(CleanRelease)
  {
    assert StaticOk(s, p, s.procs[p]);
    var file := FreshFile(s.disk.inodes.Keys);
    var sync := Advance(p, file, "", "", 0, LockName);
    NextKeeps(s, sync);
    RunOne(s, sync);
    actions, t := [sync], Next(s, sync);
  }

  // From any history with the lock free, a release that fails after its rename
  // ends in an unclean marker although the released record is in place: in the
  // directory sync, or, with everything synced, in the cleanup.
  lemma UncleanYetReleased(s: State, p: nat, pid: nat, hostname: string, umask: Mode,
                           incarnation: string, controlPlaneId: string, now: int, inCleanup: bool)
      returns (actions: seq<Action>, t: State, id: string, released: string)
    requires Reachable(s) && s.locks == map[] && p !in s.procs
    requires pid > 0 && hostname != "" && KeepsOwnerAccess(umask)
    requires ValidUuid(incarnation) && incarnation !in s.used
    requires ValidUuid(controlPlaneId) && controlPlaneId !in s.used && controlPlaneId != incarnation
    ensures Run(s, actions) == Some(t)
    ensures UncleanMarker(id, released) in t.log && HasReleased(Live(t.disk).installs, released)
    ensures inCleanup ==> HasReleased(t.disk.durable.installs, released)
  {
    var acquiring, u := AcquisitionSucceeds(s, p, pid, hostname, umask, incarnation, controlPlaneId, now);
    var releasing, v := ReleaseUnderway(u, p, incarnation, controlPlaneId, now);
    var before := [Spawn(p, pid, hostname, umask)] + acquiring;
    RunAppend(s, before, releasing, u);
    var ending, w, id', released' := FailLate(v, p, inCleanup);
    RunAppend(s, before + releasing, ending, v);
    actions, t, id, released := before + releasing + ending, w, id', released';
  }

  lemma FailLate(s: State, p: nat, inCleanup: bool)
      returns (actions: seq<Action>, t: State, id: string, released: string)
    requires Inv(s) && p in s.procs && s.procs[p].pc == WriteRelease(ToSync)
    ensures Run(s, actions) == Some(t)
    ensures UncleanMarker(id, released) in t.log && HasReleased(Live(t.disk).installs, released)
    ensures inCleanup ==> HasReleased(t.disk.durable.installs, released)
  {
    var synced, u := [], s;
    if inCleanup { synced, u := ReleaseSynced(s, p); }
    FailedAfterRename(u, p);
    id, released := u.procs[p].claim.value.stable.controlPlaneId, u.procs[p].claim.value.incarnation;
    var failing, v := FailNow(u, p);
    RunAppend(s, synced, failing, u);
    actions, t := synced + failing, v;
  }

  lemma FailNow(s: State, p: nat) returns (actions: seq<Action>, t: State)
    requires p in s.procs && PastRename(s.procs[p].pc) && s.procs[p].claim.Some?
    ensures Run(s, actions) == Some(t) && t.disk == s.disk
    ensures UncleanMarker(s.procs[p].claim.value.stable.controlPlaneId, s.procs[p].claim.value.incarnation) in t.log
  {
    var fault, u := Fault(p, false), Next(s, Fault(p, false));
    var rest, v := AnnounceUnclean(u, p);
    RunFirst(s, fault, rest, v);
    actions, t := [fault] + rest, v;
  }

  lemma AnnounceUnclean(s: State, p: nat) returns (actions: seq<Action>, t: State)
    requires p in s.procs && s.procs[p].pc in {Closing(UncleanRelease), Announcing(UncleanRelease)}
    requires s.procs[p].claim.Some?
    ensures Run(s, actions) == Some(t) && t.disk == s.disk
    ensures UncleanMarker(s.procs[p].claim.value.stable.controlPlaneId, s.procs[p].claim.value.incarnation) in t.log
  {
    var file := FreshFile(s.disk.inodes.Keys);
    var step := Advance(p, file, "", "", 0, LockName);
    RunOne(s, step);
    actions, t := [step], Next(s, step);
    if t.procs[p].pc != Ended {
      Extend(s, [step], t, step);
      actions, t := [step] + [step], Next(t, step);
    }
  }
}
