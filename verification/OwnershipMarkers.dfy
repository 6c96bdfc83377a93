// When each marker is announced, and what it says.
module OwnershipMarkers {
  import opened Prelude
  import opened ControlPlaneNames
  import opened ControlPlaneDisk
  import opened OwnershipProtocol
  import opened OwnershipSafety
  import opened OwnershipSteps
  import opened OwnershipInvariant
  import opened OwnershipProgress

  // Where a process has a marker to emit.
  predicate HasMarkerToEmit(pc: Pc) {
    pc == AnnounceRecovered || pc == AnnounceAcquired || pc.Announcing?
  }

  // An acquisition announces its recovery, if it is one, and then itself, each
  // under its own control-plane id and incarnation.
  lemma AcquisitionAnnounced(s: State, a: Action)
    requires Reachable(s) && a.Advance? && Enabled(s, a)
    requires s.procs[a.proc].pc == AnnounceRecovered || s.procs[a.proc].pc == AnnounceAcquired
    ensures var q, t := s.procs[a.proc], Next(s, a);
            && a.proc in t.procs
            && (q.pc == AnnounceRecovered ==>
                && q.claim.Some? && q.claim.value.recoveredFrom.Some?
                && t.log == s.log + [RecoveredMarker(q.claim.value.stable.controlPlaneId,
                                                     q.claim.value.recoveredFrom.value, q.claim.value.incarnation)]
                && t.procs[a.proc].pc == AnnounceAcquired && t.procs[a.proc].claim == q.claim)
            && (q.pc == AnnounceAcquired ==>
                && q.claim.Some?
                && t.log == s.log + [AcquiredMarker(q.claim.value.stable.controlPlaneId, q.claim.value.incarnation)]
                && t.procs[a.proc].pc == Running && t.procs[a.proc].claim == q.claim)
  {
    ReachableInv(s);
    assert StaticOk(s, a.proc, s.procs[a.proc]);
    assert Next(s, a) == ClaimStep(s, a.proc, s.procs[a.proc], a);
    if s.procs[a.proc].pc == AnnounceRecovered { Holder(s, a.proc, AnnounceRecovered); }
  }

  // A process that ends announces exactly how: released or unclean under its own
  // id and incarnation, in conflict, or refused for its reason.
  lemma EndAnnounced(s: State, a: Action)
    requires Reachable(s) && a.Advance? && Enabled(s, a) && s.procs[a.proc].pc.Announcing?
    ensures var q, t := s.procs[a.proc], Next(s, a);
            && a.proc in t.procs && t.procs[a.proc].pc == Ended
            && (q.pc.ending == CleanRelease ==> q.claim.Some?)
            && (q.pc.ending == CleanRelease ==>
                t.log == s.log + [ReleasedMarker(q.claim.value.stable.controlPlaneId, q.claim.value.incarnation)])
            && (q.pc.ending == UncleanRelease && q.claim.Some? ==>
                t.log == s.log + [UncleanMarker(q.claim.value.stable.controlPlaneId, q.claim.value.incarnation)])
            && (q.pc.ending == Conflict ==> t.log == s.log + [ConflictMarker])
            && (q.pc.ending.Refused? ==> t.log == s.log + [RefusedMarker(q.pc.ending.reason)])
  {
    ReachableInv(s);
    assert StaticOk(s, a.proc, s.procs[a.proc]);
  }

  lemma QuietClaimStep(s: State, a: Action)
    requires a.Advance? && Enabled(s, a) && s.procs[a.proc].claim.Some? && !HasMarkerToEmit(s.procs[a.proc].pc)
    ensures ClaimStep(s, a.proc, s.procs[a.proc], a).log == s.log
  {
  }

  // Nothing else is ever announced.
  lemma OnlyAnnouncements(s: State, a: Action)
    requires Enabled(s, a) && Next(s, a).log != s.log
    ensures a.Advance? && HasMarkerToEmit(s.procs[a.proc].pc)
  {
    if a.Advance? && s.procs[a.proc].claim.Some? && 5 <= Stage(s.procs[a.proc].pc) <= 40
       && !HasMarkerToEmit(s.procs[a.proc].pc) {
      QuietClaimStep(s, a);
    }
  }

  // Once its records are durable, an acquisition has exactly those markers to
  // emit; and a release whose record is durable ends clean if its cleanup does.
  lemma WhatFollowsTheSync(s: State, a: Action)
    requires Reachable(s) && a.Advance? && Enabled(s, a)
    ensures var q, t := s.procs[a.proc], Next(s, a);
            && (q.pc == WriteOwner(ToSync) ==>
                && a.proc in t.procs && q.claim.Some? && t.procs[a.proc].claim == q.claim
                && t.procs[a.proc].pc == if q.claim.value.recoveredFrom.Some? then AnnounceRecovered
                                         else AnnounceAcquired)
            && (q.pc == WriteRelease(ToSync) ==>
                a.proc in t.procs && t.procs[a.proc].pc == Closing(CleanRelease) && t.procs[a.proc].claim == q.claim)
            && (q.pc.Closing? && q.pc.ending != MarkerLost ==>
                a.proc in t.procs && t.procs[a.proc].pc == Announcing(q.pc.ending) && t.procs[a.proc].claim == q.claim
                && !t.procs[a.proc].locked)
  {
    ReachableInv(s);
    assert StaticOk(s, a.proc, s.procs[a.proc]);
    if s.procs[a.proc].pc == WriteOwner(ToSync) {
      assert Next(s, a)
        == WriteOwnerStep(s, a.proc, s.procs[a.proc], s.procs[a.proc].claim.value, a.file, a.now, ToSync);
    } else if s.procs[a.proc].pc == WriteRelease(ToSync) {
      assert Next(s, a)
        == WriteReleaseStep(s, a.proc, s.procs[a.proc], s.procs[a.proc].claim.value, a.file, a.now, ToSync);
    }
  }
}
