// The object's release is a run of the state machine: same directory, same
// marker, whichever call fails.
module OwnershipRefinement {
  import opened Prelude
  import opened ControlPlaneNames
  import opened ControlPlaneDisk
  import opened OwnershipProtocol
  import opened OwnershipSafety
  import opened OwnershipInvariant
  import opened OwnershipTheorems
  import opened OwnershipProgress
  import opened OwnershipSession
  import opened OwnershipObject

  // The state reached from `s` when process `p` has the call of `phase` before it.
  predicate AtPhase(s: State, p: nat, w: Write, phase: WritePhase, u: State) {
    && p in s.procs
    && u == Put(s.(disk := Before(s.disk, w, phase)), p,
                s.procs[p].(pc := WriteRelease(phase),
                            tempFile := if phase == ToCreate then s.procs[p].tempFile else w.file))
  }

  predicate Writes(s: State, p: nat, w: Write, now: int) {
    && p in s.procs && s.procs[p].claim.Some? && s.procs[p].pc == WriteRelease(ToCreate)
    && w == ReleaseOf(s.root, s.procs[p], s.procs[p].claim.value, w.file, now)
  }

  function Previous(phase: WritePhase): WritePhase {
    match phase
    case ToCreate => ToCreate
    case ToProtect => ToCreate
    case ToWrite => ToProtect
    case ToRename => ToWrite
    case ToSync => ToRename
  }

  // One call of the write.
  lemma WriteCall(s: State, p: nat, w: Write, now: int, phase: WritePhase, u: State) returns (a: Action)
    requires Writes(s, p, w, now) && AtPhase(s, p, w, phase, u) && phase != ToSync
    requires w.file !in s.disk.inodes && w.temp !in Names(s)
    ensures Enabled(u, a) && AtPhase(s, p, w, NextPhase(phase), Next(u, a))
  {
    var file := FreshFile(u.disk.inodes.Keys);
    a := Advance(p, if phase == ToCreate then w.file else file, "", "", now, LockName);
    assert Next(u, a) == WriteReleaseStep(u, p, u.procs[p], u.procs[p].claim.value, a.file, now, phase);
  }

  lemma {:induction false} WriteUpTo(s: State, p: nat, w: Write, now: int, phase: WritePhase)
      returns (actions: seq<Action>, u: State)
    requires Writes(s, p, w, now) && w.file !in s.disk.inodes && w.temp !in Names(s)
    ensures Run(s, actions) == Some(u) && AtPhase(s, p, w, phase, u)
    decreases 5 - PhaseRank(phase)
  {
    if phase == ToCreate {
      actions, u := [], s;
    } else {
      var before, v := WriteUpTo(s, p, w, now, Previous(phase));
      var a := WriteCall(s, p, w, now, Previous(phase), v);
      Extend(s, before, v, a);
      actions, u := before + [a], Next(v, a);
    }
  }

  // The write as the object makes it: through, or up to the failing call.
  lemma WriteAndClose(s: State, p: nat, w: Write, now: int, failAt: Option<WritePhase>)
      returns (actions: seq<Action>, t: State)
    requires Writes(s, p, w, now) && w.file !in s.disk.inodes && !s.procs[p].poisoned
    ensures Run(s, actions) == Some(t) && p in t.procs && t.log == s.log
    ensures var written := failAt.None? && w.temp !in Names(s);
            && t.disk == AfterRelease(s.disk, w, true, failAt)
            && t.procs[p].pc == Closing(if written then CleanRelease else UncleanRelease)
            && t.procs[p].poisoned == !written && t.procs[p].claim == s.procs[p].claim
  {
    if w.temp in Names(s) {
      var a := Advance(p, w.file, "", "", now, LockName);
      RunOne(s, a);
      actions, t := [a], Next(s, a);
    } else {
      var before, u := WriteUpTo(s, p, w, now, if failAt.Some? then failAt.value else ToSync);
      var file := FreshFile(u.disk.inodes.Keys);
      var last := if failAt.Some? then Fault(p, false) else Advance(p, file, "", "", now, LockName);
      Extend(s, before, u, last);
      actions, t := before + [last], Next(u, last);
      if failAt.None? { LastCall(s, p, w, now, u, last); } else { FailingCall(s, p, w, failAt.value, u, last); }
    }
  }

  lemma LastCall(s: State, p: nat, w: Write, now: int, u: State, last: Action)
    requires Writes(s, p, w, now) && AtPhase(s, p, w, ToSync, u) && last.Advance? && last.proc == p
    requires Enabled(u, last) && last.now == now
    ensures var t := Next(u, last);
            p in t.procs && t.log == s.log && t.disk == Written(s.disk, w) && t.procs[p].claim == s.procs[p].claim
            && t.procs[p].pc == Closing(CleanRelease) && t.procs[p].poisoned == s.procs[p].poisoned
  {
    assert Next(u, last) == WriteReleaseStep(u, p, u.procs[p], u.procs[p].claim.value, last.file, now, ToSync);
  }

  lemma FailingCall(s: State, p: nat, w: Write, phase: WritePhase, u: State, last: Action)
    requires AtPhase(s, p, w, phase, u) && last == Fault(p, false)
    ensures var t := Next(u, last);
            p in t.procs && t.log == s.log && t.disk == Before(s.disk, w, phase) && t.procs[p].poisoned
            && t.procs[p].pc == Closing(UncleanRelease) && t.procs[p].claim == s.procs[p].claim
  {
  }

  // From the cleanup to the marker.
  lemma Cleanup(s: State, p: nat, cleanupFails: bool) returns (a: Action, u: State)
    requires p in s.procs && s.procs[p].claim.Some?
    requires s.procs[p].pc == Closing(CleanRelease) || s.procs[p].pc == Closing(UncleanRelease)
    requires s.procs[p].poisoned == (s.procs[p].pc == Closing(UncleanRelease))
    ensures Run(s, [a]) == Some(u) && p in u.procs && u.disk == s.disk && u.log == s.log
    ensures var clean := s.procs[p].pc == Closing(CleanRelease) && !cleanupFails;
            && u.procs[p].pc == Announcing(if clean then CleanRelease else UncleanRelease)
            && u.procs[p].poisoned == !clean && !u.procs[p].locked && u.procs[p].claim == s.procs[p].claim
  {
    var file := FreshFile(s.disk.inodes.Keys);
    a := if cleanupFails then Fault(p, false) else Advance(p, file, "", "", 0, LockName);
    RunOne(s, a);
    u := Next(s, a);
  }

  lemma Announce(s: State, p: nat) returns (a: Action, u: State)
    requires p in s.procs && s.procs[p].pc.Announcing?
    ensures Run(s, [a]) == Some(u)
    ensures u == Put(s.(log := s.log + EndMarker(s.procs[p], s.procs[p].pc.ending)), p, s.procs[p].(pc := Ended))
  {
    var file := FreshFile(s.disk.inodes.Keys);
    a := Advance(p, file, "", "", 0, LockName);
    RunOne(s, a);
    u := Next(s, a);
  }

  lemma CloseAndAnnounce(s: State, p: nat, cleanupFails: bool) returns (actions: seq<Action>, t: State)
    requires p in s.procs && s.procs[p].claim.Some?
    requires s.procs[p].pc == Closing(CleanRelease) || s.procs[p].pc == Closing(UncleanRelease)
    requires s.procs[p].poisoned == (s.procs[p].pc == Closing(UncleanRelease))
    ensures Run(s, actions) == Some(t) && p in t.procs && t.disk == s.disk
    ensures var clean := s.procs[p].pc == Closing(CleanRelease) && !cleanupFails;
            && t.log == s.log + EndMarker(s.procs[p], if clean then CleanRelease else UncleanRelease)
            && t.procs[p].pc == Ended && t.procs[p].poisoned == !clean && !t.procs[p].locked
  {
    var a, u := Cleanup(s, p, cleanupFails);
    var b, v := Announce(u, p);
    RunAppend(s, [a], [b], u);
    actions, t := [a] + [b], v;
  }

  // Up to the first call of the write, or to an unclean end without one.
  lemma Begin(s: State, p: nat, identitiesMatch: bool) returns (actions: seq<Action>, u: State)
    requires p in s.procs && s.procs[p].pc == Running && s.procs[p].claim.Some?
    ensures Run(s, actions) == Some(u)
    ensures u == Put(s, p, if !s.procs[p].poisoned && identitiesMatch then s.procs[p].(pc := WriteRelease(ToCreate))
                           else s.procs[p].(pc := Closing(UncleanRelease), poisoned := true))
  {
    var begin := BeginRelease(p);
    RunOne(s, begin);
    actions, u := [begin], Next(s, begin);
    if !s.procs[p].poisoned {
      var file := FreshFile(s.disk.inodes.Keys);
      var check := if identitiesMatch then Advance(p, file, "", "", 0, LockName) else Fault(p, false);
      Extend(s, [begin], u, check);
      actions, u := [begin] + [check], Next(u, check);
    }
  }

  // From running to the cleanup.
  lemma UpToCleanup(s: State, p: nat, identitiesMatch: bool, file: FileId, now: int, failAt: Option<WritePhase>)
      returns (actions: seq<Action>, t: State)
    requires p in s.procs && s.procs[p].pc == Running && s.procs[p].claim.Some? && file !in s.disk.inodes
    ensures Run(s, actions) == Some(t) && p in t.procs && t.log == s.log
    ensures var q := s.procs[p];
            var w, permitted := ReleaseOf(s.root, q, q.claim.value, file, now), !q.poisoned && identitiesMatch;
            var written := permitted && failAt.None? && w.temp !in Names(s);
            && t.disk == AfterRelease(s.disk, w, permitted, failAt) && t.procs[p].claim == q.claim
            && t.procs[p].pc == Closing(if written then CleanRelease else UncleanRelease)
            && t.procs[p].poisoned == !written
  {
    var q := s.procs[p];
    actions, t := Begin(s, p, identitiesMatch);
    if !q.poisoned && identitiesMatch {
      var writing, v := WriteAndClose(t, p, ReleaseOf(s.root, q, q.claim.value, file, now), now, failAt);
      RunAppend(s, actions, writing, t);
      actions, t := actions + writing, v;
    }
  }

  // Whatever happens in it, a release as the object's contract states it is a run
  // of the process that holds the lock: the directory, the marker and the poison.
  lemma ReleaseIsARun(s: State, p: nat, identitiesMatch: bool, file: FileId, now: int, failAt: Option<WritePhase>,
                      cleanupFails: bool)
      returns (actions: seq<Action>, t: State)
    requires p in s.procs && s.procs[p].pc == Running && s.procs[p].claim.Some? && file !in s.disk.inodes
    ensures Run(s, actions) == Some(t) && p in t.procs
    ensures var q := s.procs[p];
            var w, permitted := ReleaseOf(s.root, q, q.claim.value, file, now), !q.poisoned && identitiesMatch;
            var clean := permitted && failAt.None? && w.temp !in Names(s) && !cleanupFails;
            && t.disk == AfterRelease(s.disk, w, permitted, failAt)
            && t.log == s.log + (if clean
                                 then [ReleasedMarker(q.claim.value.stable.controlPlaneId, q.claim.value.incarnation)]
                                 else [UncleanMarker(q.claim.value.stable.controlPlaneId, q.claim.value.incarnation)])
            && t.procs[p].poisoned == !clean && !t.procs[p].locked && t.procs[p].pc == Ended
  {
    var before, u := UpToCleanup(s, p, identitiesMatch, file, now, failAt);
    var closing, end := CloseAndAnnounce(u, p, cleanupFails);
    RunAppend(s, before, closing, u);
    actions, t := before + closing, end;
  }
}
