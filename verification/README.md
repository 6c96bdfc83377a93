# A model of the control plane's protocols, and what is proved of it

This project models the parts of the repository whose correctness spans many
steps or many functions, and proves what those parts are for. It stands beside
the code: each row of the table below names a member, the lines it models, and
what its contract states.

* **Control-plane ownership** (`ControlPlaneNames`, `ControlPlaneDisk`,
  `Ownership*`). Any number of processes contend for one durable entry
  directory. The disk is a durable entry, the directory operations made since
  the last directory sync, and the files; a power loss keeps a prefix of those
  operations and leaves unsynced contents and modes undetermined. Every call is
  one step, and a kill, a failing call or a power loss may fall between any two.
  The same disk functions specify the imperative side: the bound directory,
  `AtomicWriteJson`, and a class with `acquire`, `assertHeld` and `release`.
* **Canonical outputs** (`StepKinds`, `Canonical*`). The stored row of each task
  under fenced Runs: the three-phase blind review, immutable findings reports,
  and the fix step that must account for every finding of its sibling reports.
* **Base-drift recovery** (`CommitGraph`, `Recovery*`).
  The three decision stages over a commit graph, and the retry budget over runs
  of ticks that store each decision.
* **Chains and the board** (`Ordering`, `Chain*`, `Board*`). Execution order,
  progress, grouped run facts, admission under layer barriers and holds, and
  what the board shows.
* **Small cores** (`Utf8`, `CiLogExcerpt`, `Base64`, `HeadChecks`). Excerpt
  truncation on UTF-8, strict base64 (sections 3.5 and 4 of RFC 4648), and the
  fingerprint of failing checks.

Code that updates state is a class or a method with loops, proved against a
specification function; code made of expressions is functions and lemmas.

## What the ownership model assumes

UUIDs are fresh, a process id is positive and a hostname is not empty, and the
umask keeps the owner's read and write access. The last is exactly what is needed
(`EvidenceRefusedIff`). Without it, for one, a process killed between creating and
protecting the lock file leaves one that every later process refuses, until a
power loss undoes its creation (`StrandedForGood`). Closing the
descriptor drops the lock, and so does the end of the process. Checks that a
path was replaced, the close-on-exec probe and identity drift are answers of the
environment: they may come out either way at any time.

## Where the code does less than it seems to

* A release that fails after its rename announces an unclean release although
  its released record is in place, so nobody recovers from that incarnation. It
  may fail in the directory sync, when a power loss can still undo the rename, or
  in the cleanup, when nothing can (`UncleanYetReleased`).
  `FailedReleaseRecoveredIff` and `UncleanRecoveryExact` give the exact condition,
  at the failing call and for every unclean marker ever announced. Poisoning found
  by an identity check has no such gap (`PoisonedForGood`).
* The consistency checks of closed reviews and fixes compare the whole kind, so
  they see the bare kinds only. The kinds "must-fix-v1" and
  "fixed-implementation-v1" play the same roles under the same contracts and skip
  them; they are the only two that do (`ClosedInconsistentIff`,
  `FixInconsistentIff`). The coverage checks apply to every kind in the role.
* The bound on retries is not one under every clock. A validation failure clears
  the stored hold, and a clock set back right after it starts a class's time over
  (`UnboundedIfClockGoesBack`). The exact condition is one on the policy: the bound
  holds under any clock if and only if the first validation failure already ends
  the recovery, that is with at most one attempt allowed and no minimum elapsed
  time, or the class has no room (`BoundHoldsIff`, `BoundedAtAllIff`). On a given
  run it is enough that the clock does not step back directly after a validation
  tick: the holds keep it from going back anywhere else (`SteadyIff`).
* Two or more unfinished rows of which one has neither a layer nor an index
  block each other for good (`StuckIff`).
* The comment at `packages/api/src/base64.ts:14-16` names "AAAB" and "AAAA" as
  a collision. They decode differently; only a padded group has spare bits
  (`UnpaddedNeverCollide`, `SpareBitsCollide`).
* The fingerprint of failing checks sorts by the locale. Where the locale ties
  two distinct pairs, it depends on the order they arrived in
  (`FingerprintOrderFreeIff`).
* An excerpt that fits its budget is returned as it is, with any marker in it
  (`TruncateRedactedCiLog`).

## Model

| member | source | states |
|---|---|---|
| `ControlPlaneNames.TempFilenameInjective` | packages/api/src/control-plane-directory.ts:181 | Two writes that choose one temporary name agree on the record, the process id and the incarnation. |
| `ControlPlaneNames.TempFilenameSpelled` | packages/api/src/control-plane-directory.ts:181 | The temporary names of both records at one process id, letter by letter. |
| `ControlPlaneNames.TempPattern` | packages/api/src/control-plane-ownership.ts:124 | A text matches the leftover pattern if and only if it is the prefix of a record, a decimal number, a dash, eight hexadecimal digits, a dash, and 27 such digits or dashes. |
| `ControlPlaneNames.UuidSpelled` | packages/api/src/control-plane-ownership.ts:44-57 | An id is valid if and only if it is five dashed runs of 8, 4, 4, 4 and 12 lower-case hexadecimal digits. |
| `ControlPlaneDisk.NameClassified` | packages/api/src/control-plane-ownership.ts:124-130 | The text of a name is one of the three fixed names, or matches the temporary pattern, exactly as its constructor says; so the inventory on texts is the inventory of the model. |
| `ControlPlaneDisk.NameTextInjective` | packages/api/src/control-plane-directory.ts:181 | Distinct names of the model are distinct texts. |
| `ControlPlaneDisk.PowerLossCrashSafe` | packages/api/src/control-plane-directory.ts:173-195 | If every prefix of the unsynced directory operations is a good entry directory, a power loss that keeps any of them (and scrambles unsynced files) leaves a directory with the same property. |
| `OwnershipInvariant.NextKeeps` | packages/api/src/control-plane-ownership.ts:283-477 | Every call of every process, every failing call, kill and power loss keeps the invariant: any crash now leaves recognised leftovers and complete, matching records. |
| `OwnershipTheorems.AtMostOneHolder` | packages/api/src/control-plane-ownership.ts:299-319 | In every run at most one process is between taking and dropping the lock, and it locked the one lock file. |
| `OwnershipTheorems.ChangesInsideWindow` | packages/api/src/control-plane-ownership.ts:364-384 | Apart from a crash, the entry directory is changed only by the lock holder or by creating the lock file; nothing ever unlinks or renames the lock file. |
| `OwnershipTheorems.OneControlPlaneId` | packages/api/src/control-plane-ownership.ts:339-407 | All ACQUIRED markers ever emitted for one root carry one control-plane id, and a crash at any moment leaves that id and those installations on disk. |
| `OwnershipTheorems.RecoversExactly` | packages/api/src/control-plane-ownership.ts:354-362 | An acquisition recovers exactly when the last incarnation to install an owner record never installed its release, and names it. |
| `OwnershipTheorems.SuccessorNamesPredecessor` | packages/api/src/control-plane-ownership.ts:354-394 | A release, if ever installed, directly follows its own installation; without one, the next installation is an acquisition that names that incarnation. |
| `OwnershipTheorems.MarkersTellTheTruth` | packages/api/src/control-plane-ownership.ts:385-407 | A RECOVERED marker names the incarnation installed just before, which never released; an incarnation announced RELEASED is never recovered from. |
| `OwnershipTheorems.RulingMeans` | packages/api/src/control-plane-ownership.ts:340-362 | Each ruling on the records falls if and only if its own condition on them holds, and the acquisition recovers if and only if it reads an owner record not released, from the incarnation that record names. |
| `OwnershipTheorems.InventoryMeans` | packages/api/src/control-plane-ownership.ts:126-143 | The inventory passes if and only if no name is foreign and every leftover is a regular file of this user's with mode 0600. |
| `OwnershipMarkers.AcquisitionAnnounced` | packages/api/src/control-plane-ownership.ts:385-407 | In every run an acquiring process announces its recovery and then itself, under its own control-plane id and incarnation. |
| `OwnershipMarkers.EndAnnounced` | packages/api/src/control-plane-ownership.ts:461-476 | In every run a process that ends clean puts RELEASED with its own id and incarnation in the log; one that ends unclean UNCLEAN; in conflict CONFLICT; refused REFUSED with its reason. |
| `OwnershipMarkers.OnlyAnnouncements` | packages/api/src/control-plane-ownership.ts:385-476 | No other step of any process, no fault, kill or power loss changes the log. |
| `OwnershipMarkers.WhatFollowsTheSync` | packages/api/src/control-plane-ownership.ts:380-449 | After the owner record's directory sync an acquisition announces, a recovery first; after a release's, it closes clean and announces that. |
| `OwnershipProgress.NeverRefusesOnEvidence` | packages/api/src/control-plane-ownership.ts:321-356 | In every run, after any kills and power losses, no process ever refuses because of what it found in the directory. |
| `OwnershipProgress.CloserStep` | packages/api/src/control-plane-ownership.ts:292-407 | A process alone on the root gets strictly closer to ownership with each of its calls. |
| `OwnershipProgress.AcquisitionSucceeds` | packages/api/src/control-plane-ownership.ts:283-407 | After every reachable history with the lock free, a new process has a run of its own calls that ends owning the root. |
| `OwnershipProgress.CrashesFreeTheLock` | packages/api/src/control-plane-ownership.ts:223-239 | A power loss, or a kill of the holder, leaves no lock held. |
| `OwnershipProgress.NarrowUmaskStrandsLock` | packages/api/src/control-plane-directory.ts:127-149 | Over all runs in which no power loss undoes its creation: nobody ever takes a lock file left by a process killed between creating and protecting it, if and only if that process's umask took away its own access. |
| `OwnershipProgress.EvidenceRefusedIff` | packages/api/src/control-plane-ownership.ts:321-356 | Over all histories of processes with one umask, from any directory earlier ones left, through any kills and power losses: none ever refuses on what it found if and only if the umask keeps the owner's access. |
| `OwnershipProgress.AbandonLock` | packages/api/src/control-plane-directory.ts:130-138 | From the empty directory, under every umask, a process killed between the two calls leads to such a lock file. |
| `OwnershipProgress.StrandedForGood` | packages/api/src/control-plane-directory.ts:137-143 | Such a lock file stays in place over every such run, and every process that ever comes to check it refuses. |
| `OwnershipPoison.PoisonedForGood` | packages/api/src/control-plane-ownership.ts:411-477 | An incarnation poisoned while it runs stays so in every continuation, never installs or announces a release, and whoever installs itself next recovers from it. |
| `OwnershipUnclean.FailedReleaseRecoveredIff` | packages/api/src/control-plane-ownership.ts:436-460 | A failing release, whether in its check, its write or its cleanup, leaves its released record in place if and only if it fails after the rename; failing earlier, the incarnation is recovered from in every continuation; failing in the cleanup, in none. |
| `OwnershipUnclean.UncleanRecoveryExact` | packages/api/src/control-plane-ownership.ts:436-476 | For every unclean release announced in any run: all continuations recover from it if and only if its released record is not in place, and none does if and only if that record is durable. |
| `OwnershipUnclean.UncleanYetReleased` | packages/api/src/control-plane-ownership.ts:445-476 | From every history with the lock free there are releases that end in an unclean marker although the released record is in place: one failing in its directory sync and one, with everything synced, in its cleanup. |
| `OwnershipSession.AtomicWriteJson` | packages/api/src/control-plane-directory.ts:173-195 | What a record write leaves on disk, when it succeeds and when it fails at each phase; a taken temporary name fails it without a change. |
| `OwnershipSession.StableWritten` | packages/api/src/control-plane-directory.ts:173-195 | Writing the stable record into a directory without one is crash safe at every phase, and afterwards exactly that record is read. |
| `OwnershipSession.OwnerWritten` | packages/api/src/control-plane-directory.ts:173-195 | Writing a matching owner record is crash safe at every phase, appends exactly its installation and keeps the stable record. |
| `OwnershipSession.OwnerReads` | packages/api/src/control-plane-directory.ts:173-195 | A finished write of a matching owner record is read back in every field. |
| `OwnershipSession.OpenPersistentFile` | packages/api/src/control-plane-directory.ts:127-149 | The lock file is linked exactly when it was missing; on a directory left by any history it is refused only if a call fails. |
| `OwnershipSession.InventoryEntry` | packages/api/src/control-plane-ownership.ts:126-143 | The inventory passes if and only if every other entry is a protected temporary of ours, and lists each of them once. |
| `OwnershipSession.RemoveLeftovers` | packages/api/src/control-plane-ownership.ts:364 | Removing leftovers takes away just those names, keeps the records, and is crash safe even when a call fails. |
| `OwnershipObject.InstallRecords` | packages/api/src/control-plane-ownership.ts:364-384 | Installing both records, cut off at any phase of either write, leaves a crash-safe directory; it succeeds if and only if no call fails and then has installed the claim. |
| `OwnershipObject.ReleaseCutOff` | packages/api/src/control-plane-ownership.ts:445-449 | A release cut off at any phase leaves a directory the next acquisition accepts, and recovers from unless the cut came after the rename. |
| `OwnershipObject.ControlPlaneOwnership.Inspect` | packages/api/src/control-plane-ownership.ts:321-362 | On any directory at all, foreign ones included: unless a call fails, an acquisition goes on if and only if the inventory passes, both records are readable, an owner record does not stand alone, and both name this root, this control plane, this workspace directory and this lock file; the inspection itself changes nothing. |
| `OwnershipObject.ControlPlaneOwnership.CloseResources` | packages/api/src/control-plane-ownership.ts:223-239 | Lock, descriptor, entry directory and base directory are each given up at most once, and the failures counted are exactly those of the calls made. |
| `OwnershipObject.ControlPlaneOwnership.Refuse` | packages/api/src/control-plane-ownership.ts:240-256 | Whatever cleanup reports, everything is given up, and exactly one marker is added: CONFLICT for a conflict, REFUSED with its reason for a refusal, none when the transport failed. |
| `OwnershipObject.ControlPlaneOwnership.AssertHeld` | packages/api/src/control-plane-ownership.ts:411-435 | Held if and only if not released, not poisoned before and the identities match; one mismatch poisons and nothing heals. |
| `OwnershipObject.ControlPlaneOwnership.Release` | packages/api/src/control-plane-ownership.ts:436-477 | The released record is written only when unpoisoned and still held, and names this process with the times of its acquisition and release; exactly RELEASED is added to the log when that write and the whole cleanup succeeded and exactly UNCLEAN otherwise, each with its own id and incarnation; a second call changes nothing; what is left of a directory that an acquisition made its own is crash safe, and recovered from exactly unless the write got past its rename. |
| `OwnershipRefinement.ReleaseIsARun` | packages/api/src/control-plane-ownership.ts:436-477 | Whatever fails in it, a release as that contract states it is a run of the state machine: same directory, same poison, and the RELEASED or UNCLEAN marker with this id and incarnation. |
| `OwnershipObject.ControlPlaneOwnership.Acquire` | packages/api/src/control-plane-ownership.ts:212-407 | Ends owning or gives everything up; adds exactly the markers its outcome calls for, ACQUIRED after RECOVERED if it recovers; refusing what it found leaves the directory as it was; on any directory an earlier history left, it stays crash safe whichever call fails and fails only when a call fails or the lock is taken; what it acquired is what a release starts from, and the owner record names this process, root, lock file and time in every field. |
| `StepKinds.VersionKeepsRole` | packages/db/src/step-role.ts:40-45 | One version suffix keeps the role of a kind; a second one leaves it with none. |
| `StepKinds.VersionsSpelled` | packages/db/src/step-role.ts:37 | A version is "v", a digit from 1 to 9 and any further digits. |
| `StepKinds.RoleTable` | packages/db/src/step-role.ts:23-45 | Which bare kind plays which role, kind by kind. |
| `StepKinds.ContractsMean` | packages/db/src/canonical-output-schema.ts:249-254 | A kind has a contract if and only if it is an agent's bare kind or its v1, revalidation's or regression's v2, or regression's v3. |
| `CanonicalOutput.DuplicateValues` | packages/api/src/canonical-task-output.ts:115-123 | The loop returns exactly the values that occur at two different places. |
| `CanonicalOutputRuns.EvidenceAfterFindings` | packages/api/src/canonical-task-output.ts:540-593 | Evidence reaches a Run at most once, only in a call repeating the body of the independent findings that Run persisted directly before, which are archived; that Run never persists independent findings again. |
| `CanonicalOutputRuns.EvidenceIsPredecessors` | packages/api/src/canonical-task-output.ts:675-689 | The evidence is all stored outputs of the chain's earlier tasks and nothing else. |
| `CanonicalOutputRuns.AfterUnlock` | packages/api/src/canonical-task-output.ts:546-577 | In every reachable store, the only write a Run makes after unlocking is one closed review, directly after. |
| `CanonicalOutputRuns.ClosedReviewAccounts` | packages/api/src/canonical-task-output.ts:553-577 | An accepted closed review covers every finding the same Run wrote two writes earlier, over the same range, and is that Run's last write. |
| `CanonicalMeaning.FixAcceptedIff` | packages/api/src/canonical-task-output.ts:209-331 | A fix passes if and only if, in words of the store alone: the layer below has exactly one reviewer of each role the chain holds, each with an output of its own kind from its own Run that succeeded at its commit; commit, head and reviewed head are the fix's source head; all reports name one base; and the ids dispose of exactly their findings. |
| `CanonicalMeaning.BodyAcceptedIff` | packages/api/src/canonical-task-output.ts:333-385 | A body passes if and only if it satisfies the contract of its kind and phase, names the commit it was authored at, and is consistent in itself under the two bare kinds that are checked. |
| `CanonicalMeaning.SequenceAcceptedIff` | packages/api/src/canonical-task-output.ts:540-577 | Which write a Run may make next in the blind review, as an equivalence over its earlier writes. |
| `CanonicalMeaning.AcceptedIff` | packages/api/src/canonical-task-output.ts:501-577 | A persist call is accepted if and only if it comes from the task's live Run, its kind is not the retired one, and where the step has a role, kind, body, once-only report, fix and sequence fit in the words above. |
| `CanonicalMeaning.AcceptedStores` | packages/api/src/canonical-task-output.ts:600-617 | An accepted call leaves its own row, with the earlier commit and metadata where it brings none, and every other row as it was. |
| `CanonicalFixStep.ReportsImmutable` | packages/api/src/canonical-task-output.ts:451-453 | A findings report, once stored, is unchanged by every later run of calls. |
| `CanonicalFixStep.FixStays` | packages/api/src/canonical-task-output.ts:209-331 | What is accepted as a fix once would be accepted again after every run of later calls. |
| `CanonicalFixStep.FixCovers` | packages/api/src/canonical-task-output.ts:316-330 | An accepted fix disposes of exactly the findings of all stored sibling reports. |
| `CanonicalFixStep.FixOutputCovers` | packages/api/src/canonical-task-output.ts:534-537 | In every reachable store, a stored fix of any kind in the role disposes of exactly the findings of its sibling reports. |
| `CanonicalExact.ClosedSelfMeaning` | packages/api/src/canonical-task-output.ts:125-149 | A closed review is consistent if and only if no list repeats an id and the must-fix ids are exactly those of its P0 and P1 findings. |
| `CanonicalExact.FixedSelfMeaning` | packages/api/src/canonical-task-output.ts:177-193 | A fix is consistent if and only if no list repeats an id and the closed findings are exactly the adopted ones. |
| `CanonicalExact.ClosedIsConsistent` | packages/api/src/canonical-task-output.ts:378-380 | Under the bare combined-review kind every accepted closed review is consistent. |
| `CanonicalExact.ClosedInconsistentIff` | packages/api/src/canonical-task-output.ts:346-380 | Of all kinds in the combined review's role, an inconsistent closed review can be accepted under exactly one, "must-fix-v1"; kinds without a registered contract accept nothing. |
| `CanonicalExact.FixIsConsistent` | packages/api/src/canonical-task-output.ts:381-383 | Under the bare fix kind every accepted fix is consistent. |
| `CanonicalExact.FixOutputExact` | packages/api/src/canonical-task-output.ts:513-537 | Under the bare fix kind a stored fix gives each sibling finding exactly one disposition, none to any other id, and closes exactly what it adopted, in every reachable store. |
| `CanonicalExact.FixInconsistentIff` | packages/api/src/canonical-task-output.ts:351-383 | Of all kinds in the fix step's role, a fix that closes what it never adopted, or repeats an id, can be stored under exactly one, "fixed-implementation-v1". |
| `CanonicalExact.CompletionTurnsOnBinding` | packages/api/src/canonical-task-output.ts:387-421 | Completion refuses what persistence accepted only for whose output it is, its kind, its head or its phase, never for its content. |
| `CanonicalOutputStore.SuccessfulSiblingHeads` | packages/api/src/canonical-task-output.ts:255-268 | The loop's map holds a head for a sibling if and only if a successful Run of it ended there. |
| `CanonicalOutputStore.CollectReports` | packages/api/src/canonical-task-output.ts:269-315 | The loop returns each present sibling's report, findings first, or the first sibling's refusal. |
| `CanonicalOutputStore.FixedImplementationPersistenceRefusal` | packages/api/src/canonical-task-output.ts:209-331 | The imperative check computes the refusal that FixAcceptedIff, FixStays, FixCovers and FixOutputExact are about. |
| `CanonicalOutputStore.OutputTable.Persist` | packages/api/src/canonical-task-output.ts:476-690 | One persist call is the step that every run theorem above quantifies over; a refusal changes nothing. |
| `CommitGraph.AncestorIffPath` | packages/api/src/base-drift-recovery-decision.ts:355-376 | The computed ancestor set is exactly reachability by parent links. |
| `CommitGraph.NotBehindIffDescends` | packages/api/src/base-drift-recovery-decision.ts:355-376 | A comparison that is not behind, ahead or identical, is exactly ancestry. |
| `RecoveryDecision.InspectedAgrees` | packages/api/src/base-drift-recovery-decision.ts:210-287 | What the durable facts of an inspected candidate agree on: no active Run, its target, heads, branch and source Run, and one intent at most. |
| `RecoveryMeaning.InspectedIff` | packages/api/src/base-drift-recovery-decision.ts:210-287 | A candidate is inspected if and only if its stop stands, its source Run matches, its tail is finished and its authorization agrees; and then every field of it comes from its own fact, the observed base from the evidence of the stop. |
| `RecoveryMeaning.NotInspected` | packages/api/src/base-drift-recovery-decision.ts:210-250 | A step that is no stopped executor or was settled before is skipped, one whose chain is busy waits, and nothing else does either. |
| `RecoveryDecision.FreshQueuesIff` | packages/api/src/base-drift-recovery-decision.ts:306-378 | A complete read queues if and only if the pull request is still the authorized one and its base equals or descends from both bases. |
| `RecoveryMeaning.FreshMeans` | packages/api/src/base-drift-recovery-decision.ts:306-378 | Transport retry, queue and ineligible are told apart by equivalences on what was read. |
| `RecoveryMeaning.DurableMeans` | packages/api/src/base-drift-recovery-decision.ts:380-413 | Every answer of the durable recheck by its own condition, exhausted and ineligible apart. |
| `RecoveryDecision.QueueIsSound` | packages/api/src/base-drift-recovery-decision.ts:210-413 | Queued by all three stages together: same candidate in every field, current base from both bases, head still authorized, below the limit. |
| `RecoveryMeaning.QueueRestsOnEvidence` | packages/api/src/base-drift-recovery-decision.ts:210-413 | Queued by all three stages: the current base descends from the authorized base and from the base the evidence of the stop names. |
| `RecoveryRuns.RunAccounts` | packages/api/src/base-drift-recovery-decision.ts:468-519 | Over every run of stored decisions, a class's count is the number of its own ticks and its first failure the time of the first of them. |
| `RecoveryMeaning.GivesUpIff` | packages/api/src/base-drift-recovery-decision.ts:468-519 | A class is given up on if and only if its own ceiling, or for validation its attempts and elapsed time, are used up. |
| `RecoveryMeaning.HoldsDouble` | packages/api/src/base-drift-recovery-decision.ts:452-458 | The first hold is the start value and each later one twice the one before, up to the cap. |
| `RecoveryRuns.HoldsReachCap` | packages/api/src/base-drift-recovery-decision.ts:452-458 | Once the doubling reaches the cap, every later hold is exactly the cap. |
| `RecoveryRuns.RetriesBounded` | packages/api/src/base-drift-recovery-decision.ts:452-530 | However classes interleave, a class not given up on has retried at most m + 1 + ceiling/cap times, unless the clock steps back directly after a validation tick. |
| `RecoveryRuns.SteadyIff` | packages/api/src/base-drift-recovery-decision.ts:515-530 | In a run that respects its holds the clock never goes back at all if and only if it does not step back directly after a validation tick. |
| `RecoveryRuns.BoundHoldsIff` | packages/api/src/base-drift-recovery-decision.ts:452-519 | Under any clock whatever: that bound holds over all runs if and only if a first validation failure already ends the recovery, or the ceiling is zero. |
| `RecoveryRuns.BoundedAtAllIff` | packages/api/src/base-drift-recovery-decision.ts:452-519 | For every policy and under any clock: retries of a class are bounded by any number at all if and only if its ceiling is not positive, or its holds grow and a first validation failure already ends the recovery. |
| `RecoveryRuns.RetriesPossibleIff` | packages/api/src/base-drift-recovery-decision.ts:475-519 | n retries of a class are possible under a steady clock if and only if its first n - 1 holds fit under its ceiling. |
| `RecoveryRuns.UnboundedIfClockGoesBack` | packages/api/src/base-drift-recovery-decision.ts:470-517 | Where a first validation failure can be survived, every number of waiting retries, and of transport retries, is possible under some clock. |
| `ChainOrder.NotAfterTotal` | packages/db/src/chain-order.ts:40-44 | The execution order is total and only rows with one id tie. |
| `ChainOrder.OrderMeans` | packages/db/src/chain-order.ts:27-44 | Stored layer, else index, else last; then index; then id letter by letter. |
| `ChainOrder.ProgressOrderIndependent` | packages/api/src/chain.ts:95-120 | Progress does not depend on the order rows arrive in. |
| `ChainOrder.ProgressMeaning` | packages/api/src/chain.ts:95-120 | Done, total and layers are the sizes of the sets of such rows; the current layer is in range, is that of the lowest unfinished row and the last one when all is done, and name and status shown are that row's own. |
| `ChainOrder.ProgressNeverDrops` | packages/api/src/chain.ts:95-120 | Along any run in which rows only finish, done and current layer never decrease and the layer count stays. |
| `ChainOrder.KeyIdentifiesChain` | packages/api/src/chain.ts:128 | Two chains never share a key while project ids have no colon. |
| `ChainOrder.ChainProgressByChain` | packages/api/src/chain.ts:130-144 | The grouping loop gives each chain exactly the progress of its own rows. |
| `ChainRunFacts.RunFactsByTask` | packages/api/src/chain.ts:252-276 | The loop folds exactly each mentioned task's own group rows. |
| `ChainRunFacts.FoldEqualsDirect` | packages/api/src/chain.ts:252-276 | For every set of runs and every order of its grouped rows, folding gives the facts counted directly from the runs. |
| `ChainRunFacts.DirectMeans` | packages/api/src/chain.ts:252-276 | The total is the number of the task's runs, active that one of them is, and the grants the highest of them, none at zero. |
| `ChainRunFacts.GroupingExists` | packages/api/src/chain.ts:252-276 | Every set of runs has a grouping by task and status of the form the folding takes. |
| `ChainAdmission.BlockerMeans` | packages/api/src/chain.ts:233-247 | No blocker if and only if no row blocks; the one named is the first in execution order. |
| `ChainAdmission.FreeIsLowestLayer` | packages/api/src/chain.ts:233-247 | With known layers the unblocked unfinished rows are exactly those of the lowest unfinished layer. |
| `ChainAdmission.StuckIff` | packages/api/src/chain.ts:233-247 | Work left and nothing free if and only if one of two or more unfinished rows has neither layer nor index. |
| `ChainAdmission.HoldRefusesIff` | packages/db/src/chain-hold.ts:41-51 | An absent, released, foreign or chainless control never refuses; a held one refuses a step of its chain if and only if its layer is unknown, it stands before the first layer, or the step's layer is unknown or beyond the held one. |
| `ChainAdmission.AdmittedIff` | packages/api/src/chain.ts:364-409 | A step is admitted if and only if every condition holds, each spelled out: hold, binding, order, budget and assignee. |
| `ChainAdmission.RefusalIsTrue` | packages/api/src/chain.ts:364-409 | Whatever refusal is given, its own condition holds; the catch-all is left to an assignee that is not loaded. |
| `ChainAdmission.BarrierHolds` | packages/api/src/chain.ts:206-409 | In every run of admitted starts, ends and manual finishes over known layers: below an active row all is done, active rows share a layer, no row has two active runs, and the free rows are the lowest unfinished layer. |
| `BoardDisplay.ChainDisplayByTask` | packages/api/src/board.ts:554-583 | The two loops give every row of the page exactly the display the lemmas below are about. |
| `BoardDisplay.GroupNameMeans` | packages/api/src/board.ts:564-575 | When a chain has a name and which: the one all rows carry before their step name, else the longest shared prefix, else none. |
| `BoardDisplay.SharedNameIsLongest` | packages/api/src/board.ts:568-575 | Without template names the name is the longest prefix ending at ": " shared by all rows with something after it, and there is one if and only if such a prefix exists. |
| `BoardDisplay.ShownSplits` | packages/api/src/board.ts:540-583 | Chain name, ": " and title make up the row's name; a row without a chain name shows it whole. |
| `BoardDisplay.KeyMeans` | packages/api/src/board.ts:559 | Two rows have one key if and only if they are of one chain of one project, for project ids without a NUL. |
| `BoardDisplay.ShownMeans` | packages/api/src/board.ts:540-583 | Said of the page alone: a row shows the name its template gave the whole chain and its own step; else the longest name it shares with another row of its chain; else its own name. |
| `BoardDisplay.ChainAgrees` | packages/api/src/board.ts:564-581 | All rows of one chain show one chain name. |
| `BoardDisplay.ShownOrderIndependent` | packages/api/src/board.ts:554-583 | What a row shows does not depend on the order of the page. |
| `BoardAggregate.StepStatusCounts` | packages/api/src/board.ts:427-428 | The loop returns, for every status, the number of steps in it, and the counts add up to the steps. |
| `BoardAggregate.ColumnMeans` | packages/api/src/board.ts:430-445 | A chain stands under DOING exactly while a step or repair is or runs, under DONE exactly when all are done and none runs, and otherwise under its frontier's status. |
| `BoardAggregate.FrontierMeans` | packages/api/src/board.ts:430-438 | The frontier is the first unfinished step in execution order, else the first unfinished repair, else the last step, else the last repair. |
| `BoardAggregate.FrontierIsActiveStep` | packages/api/src/board.ts:430-438 | While a step is unfinished, the frontier is the very step chain progress names as active. |
| `BoardAggregate.EmitOnce` | packages/api/src/board.ts:1296-1335 | Each chain's aggregate goes out with the first card of its chain and no other. |
| `BoardAggregate.RepairChainBindingsFromRows` | packages/api/src/board.ts:707-729 | Each repair task is bound by its newest valid marker row and by no other. |
| `BoardAggregate.BindingMeans` | packages/api/src/board.ts:719-727 | A marker row binds if and only if it names a known regression task of a chain in the repair's own project, and a repair kind. |
| `BoardAggregate.NewestValidMeans` | packages/api/src/board.ts:716-728 | The binding is that of the first valid row of the task; none if and only if no row is valid. |
| `Utf8.DecodeEncode` | packages/api/src/ci-log-redaction.ts:37-40 | Decoding an encoding gives the characters back. |
| `Utf8.EncodedBits` | packages/api/src/ci-log-redaction.ts:29 | The lead byte and the bits of every character's bytes. |
| `Utf8.ScalarsUnits` | packages/api/src/ci-log-redaction.ts:29 | Reading the code units of any characters gives the characters back. |
| `Utf8.DecodeCut` | packages/api/src/ci-log-redaction.ts:37-40 | A character cut off by the end reads as one replacement character after the whole ones. |
| `Utf8.BoundaryIff` | packages/api/src/ci-log-redaction.ts:36 | A byte inside a text starts a character if and only if it is not a continuation byte. |
| `CiLogExcerpt.CharacterBoundary` | packages/api/src/ci-log-redaction.ts:35-36 | The loop stops where the longest suffix of whole characters fitting after the cut begins. |
| `CiLogExcerpt.TailFromFits` | packages/api/src/ci-log-redaction.ts:35-36 | The suffix the specification keeps fits, and no longer one does. |
| `CiLogExcerpt.MarkerMeans` | packages/api/src/ci-log-redaction.ts:1 | A marker is "-----BEGIN ", a label of two or more capitals, digits and spaces that starts with a capital, and "-----". |
| `CiLogExcerpt.OpenBlockMeans` | packages/api/src/ci-log-redaction.ts:44 | From the leftmost marker on the text gives way to the notice; without one it is unchanged. |
| `CiLogExcerpt.NoMarkerLeft` | packages/api/src/ci-log-redaction.ts:44 | After the block pass no complete BEGIN marker is left; the notice never completes one. |
| `CiLogExcerpt.Trim` | packages/api/src/ci-log-redaction.ts:45 | The loop ends with a prefix that fits and one code unit more would not. |
| `CiLogExcerpt.TruncateRedactedCiLog` | packages/api/src/ci-log-redaction.ts:23-47 | Never over the budget; a text that fits is kept as it is; a longer one holds no marker and is trimmed no more than needed. |
| `CiLogExcerpt.ExcerptIsLongestSuffix` | packages/api/src/ci-log-redaction.ts:35-40 | Without a first line to keep, the excerpt is the longest suffix of whole characters that fits. |
| `CiLogExcerpt.ExcerptKeepsFirstLine` | packages/api/src/ci-log-redaction.ts:31-40 | A first line that fits is kept whole before the longest suffix that fits beside it. |
| `CiLogExcerpt.ExcerptCutsFirstLine` | packages/api/src/ci-log-redaction.ts:31-40 | A first line over the budget keeps its whole characters that fit, and one replacement character where the budget cuts one in two. |
| `Base64.AcceptsEncodings` | packages/api/src/base64.ts:28-33 | Accepted with these bytes if and only if the text is their encoding and there is at least one. |
| `Base64.AcceptsOnlyEncodings` | packages/api/src/base64.ts:28-33 | Accepted at all if and only if some non-empty bytes encode to the text. |
| `Base64.DecodeInjective` | packages/api/src/base64.ts:11-16 | No two accepted texts stand for the same bytes. |
| `Base64.Alphabet` | packages/api/src/base64.ts:26 | The 64 symbols and the padding, value by value, and no other character. |
| `Base64.EncodingKeepsBits` | packages/api/src/base64.ts:31 | Each group of symbols is the number its bytes are, six bits to a symbol, missing bits zero. |
| `Base64.CanonicalMeans` | packages/api/src/base64.ts:26 | The syntax is groups of four with padding in the last place or the last two only. |
| `Base64.AcceptsIffSpareBitsZero` | packages/api/src/base64.ts:23-31 | Of the texts with the right syntax exactly those with zero spare bits are accepted. |
| `Base64.SpareBitsCollide` | packages/api/src/base64.ts:11-16 | Any two texts with the right syntax read the same to the runtime's decoder if and only if they differ in spare bits alone; of those exactly the one without set bits is accepted, with the bytes the runtime reads. |
| `Base64.ClearedMeans` | packages/api/src/base64.ts:14-16 | Clearing spare bits changes nothing but the low four or two bits of the last symbol before the padding. |
| `Base64.UnpaddedNeverCollide` | packages/api/src/base64.ts:14-16 | Two unpadded texts that read the same are the same text, so the collision the source comment names does not happen. |
| `HeadChecks.ClassifyHeadCheckFailures` | packages/api/src/ci-failure-recovery.ts:15-54 | Unavailable if and only if not bound to the head, incomplete, or some context is unknown or in none of the listed states; a check is reported exactly as often as a completed run with a failing conclusion, or a status in FAILURE or ERROR, has that name; the fingerprint is the sorted pairs. |
| `HeadChecks.KindOrderIndependent` | packages/api/src/ci-failure-recovery.ts:28-50 | Readability and the failing checks, counted, do not depend on the order of the contexts. |
| `HeadChecks.AnswerOrderIndependent` | packages/api/src/ci-failure-recovery.ts:15-54 | Rearranged contexts give the same kind of answer, and the same fingerprint when the locale tells the failing pairs apart. |
| `HeadChecks.FailedAnswersAgreeIff` | packages/api/src/ci-failure-recovery.ts:51-53 | Two failed answers have one fingerprint if and only if the same pairs failed, each as often, when the locale tells them apart. |
| `HeadChecks.EqualFingerprintsEqualFailures` | packages/api/src/ci-failure-recovery.ts:53 | Equal fingerprints always mean the same failing pairs, in every locale. |
| `HeadChecks.FingerprintOrderFreeIff` | packages/api/src/ci-failure-recovery.ts:52 | The fingerprint is the same in every order of arrival if and only if the locale has no tie between distinct failing pairs. |
| `HeadChecks.FingerprintsEqualIff` | packages/api/src/ci-failure-recovery.ts:52-53 | Without ties, fingerprints are equal exactly when the failing pairs are the same, counted. |

## Smaller facts

Stated too, but close to what one body says: every temporary name a write chooses
is recognised and is none of the fixed names (`TempFilenameRecognised`,
`TempFilenameDistinct`), the ruling on a directory left by earlier processes
(`ClassifyEntry`), a descriptor is closed once (`BoundDirectory.Close`), the three
forms of a chain's hold agree (`HoldFormsAgree`), a run's hold is the one the worker
reads (`DeferredIsRecoveryDeferred`), a busy chain only delays its recovery
(`BusyChainOnlyDelays`), the higher of two grants (`HighestOfTwo`), a lone surrogate
reads as the replacement character (`LoneSurrogate`), and a continuation byte is told
by its top two bits (`ContinuationBits`).

## Left out

- OwnershipObject.ControlPlaneOwnership.Release: one `release()` at a time; the moment at which `released` is reset during its own identity check is not a step.
- ControlPlaneDisk.OwnerSchema: the schemas accept lower-case UUIDs only and leave timestamps and fields nothing reads unchecked, so a foreign record may be judged differently; JSON text itself is abstract.
- Reading the owner record to describe a lock conflict; it decides nothing.
- OwnershipObject.ControlPlaneOwnership.Acquire: its steps use the state machine's own functions on the disk, but only a release is shown to be a run of the machine as a whole.
- OwnershipSession.AtomicWriteJson: in the object model an exclusive create that finds its name taken counts as a failing call, as it does in the code.
- Directory preparation (`control-plane-state.ts`), the native addon and real flock, fcntl and statfs calls are not part of this model; only their stated effects are.
- CanonicalOutputStore.OutputTable.Persist: the regression semantic-reuse check, revalidation routing, gate attestation and the activities about an implementation's base are left out, and so are their refusals and effects.
- CanonicalOutputRuns.EvidenceIsPredecessors: the evidence is a map; the query's order by chain index is left out.
- CanonicalOutputStore.OutputTable.Persist: body schemas are parameters that parse a text or refuse it; runs start from an empty store, and other writers of outputs do not occur: run completion, the merge tail, and the operator's write at packages/api/src/routes/tasks.ts:892-929, which upserts a fix or a combined review without the cover and sequence checks. What is said of every reachable store is said of persist calls only.
- CanonicalOutput.DuplicateValues: the result is a set; its sorting is for the message only.
- RecoveryDecision.QueueIsSound: ancestry answers are assumed true of the commit graph; a comparison that lies can queue anything.
- RecoveryRuns.RetriesBounded: times are unbounded integers, so the doubling never overflows to an infinite hold.
- Reading CI log evidence between the fresh and durable stages, and the worker's skip of held chains.
- ChainAdmission.BarrierHolds: a finished chain row is not reopened within a run, and layers do not change.
- ChainAdmission.FreeIsLowestLayer: for chains whose rows all have a layer or an index; StuckIff says what happens otherwise.
- ChainOrder.KeyIdentifiesChain: for project ids without a colon, as generated ids are.
- Chain activation, starting successors, opening Runs and the queries behind them.
- Utf8.Decode: bytes that are neither an encoding nor one cut off at its end never arise in an excerpt; for them the number of replacement characters is simplified.
- Redaction passes other than the rule for an open key block; they are heuristics without a crisp statement.
- HeadChecks.FingerprintOrderFreeIff: the locale's comparison is any total preorder and the sort is stable, as the language requires; the JSON text of the fingerprint is its sequence of pairs.
- Board costs, pricing, activation states, operator moves and stranded salvage branches.
- Database, HTTP and transaction plumbing: each locked transaction is one atomic step.
- Texts for people: reasons are tags, and elapsed times are not formatted.
