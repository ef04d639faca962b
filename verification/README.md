# Verified models of glm-worker

A Dafny model of the parts of glm-worker whose correctness rests on more than one function: installers
that must survive crashes, the scheduler of blocker episodes, token accounting across rollout files,
the shell comment remover, and the protocols that several processes run at once.
`dafny verify dfyconfig.toml` checks everything.

## What is modelled

**Crash-safe installers.** `FaultyDisk` is the file system both installers see: a map from paths to
files changed only by atomic calls (write a temporary file, rename, remove), any of which may fail
without effect. A crash is the run in which every call from some point on fails, so a statement about
every outcome of a method covers a crash at every step, also inside recovery and clean-up; `faults`
counts failures the disk does not explain. `CliJournal`, `CliRecovery`, `CliInstall` and `CliCommit`
model the CLI installer, `CodexJournal`, `CodexInstall` and `CodexCommit` the Codex configuration
installer with its mutation tracker, `CodexPlan` its preparation from the disk, `CodexPaths` the paths it
accepts, and `CodexReinstall` one install after another. The main results are `CliCommit.InstallCrashRecover`,
`CodexCommit.InstallCrashRecover` and `CodexReinstall.InstallAfter`.

For the Codex installer all-or-nothing is false without two conditions, and the theorem therefore covers
every plan and says exactly which stops are lost (`CodexCommit.InstallCrashRecover`). Desired files are
rewritten only when their content differs, yet the journalled postimage also records the source mode: an
unchanged file with a new source mode never reaches it, and a crash between state commit and journal removal
leaves a journal that recovery refuses for good (`CodexCommit.CommittedFits`, with the family
`CodexCommit.ModeMismatchSticks`). And when the source tree names a target twice, the journal takes it to the
last entry's image while a run writes the first entry that differs from the installed file; a stop right after
such a write is lost exactly when the two images differ (`CodexCommit.StopsRecoverIff`, with the family
`CodexCommit.RepeatedTargetSticks`). Such a run never succeeds: the next entry for the path is refused.
Repeats of what is installed already do succeed, and are recorded twice; the state file is then invalid and
every later install is refused (`CodexReinstall.InstalledIsReadableIff` and `CodexReinstall.InstallAfter`, with
the family `CodexReinstall.RepeatedTargetLocksOut`).

**Blocker episodes.** `EpisodeGraph`, `EpisodeClosure`, `EpisodeSchedule` and `EpisodeProgress` model
the combined dependency graph, the three-colour cycle check, the depth-first closure walker, both
schedulers and rebinding to a new project snapshot. Three results are negative, all about the scheduler
that compares references. A stale dependency reference can deadlock it (`StaleReferenceDeadlocks`), and so
can a stale scope root (`StaleScopeRootDeadlocks`); `EpisodeSchedule.DeadlockIff` says exactly when it
deadlocks. It can also start a task whose canonical dependency is unsatisfied
(`StaleReferenceStartsBlockedTask`); `FirstUnsatisfiedScheduledIff` says exactly when the scan keeps to the
admitted order, which makes the returned task safe (`ScheduledTaskIsUnblocked`). And after rebinding it may
no longer see a satisfied entry (`EpisodeProgress.SatisfiedEntrySeenIff`) and run that task a second time
(`SatisfiedTaskRunsAgain`; exactly when, in `SatisfiedTaskRunsAgainIff`).

**Token accounting.** `RolloutChain` orders the rollout files of a session into a chain whose
boundaries continue or restart the counters, `RolloutScan` scans it into anchors, `TokenSegments` sums
usage per file and `TokenUsage` detects resets and reports an interval. The short formula is proved
equal to a walk from anchor to anchor, with optional fields. Reset detection is not compositional
where the anchor between two intervals omits a field (`TokenUsage.PartsCanHideAReset`; exactly when, in
`TokenUsage.ResetOfTheWholeIff`).

**Shell comment remover.** `ShellLexer` (quoting, comments, here-document delimiters), `ShellScan`
(the scan with its rescan of unterminated documents), `ShellText` (what both make of concrete text),
`ShellRemoval` (the edited lines and the fixpoint), `ShellBytes` (lines, edits and their application to
bytes) and `ShellFix` (the whole).
Bytes are characters. The main result is `ShellFix.RemoveComments`.

**Protocols.** `SelfResume` is the five-hour resume loop against a clock that does not go back and
waits that are not cut short unless stopped; a run is watched for any number of resume calls.
`WakeToken` and `QualityGate` are state machines: processes interleave between file operations, which
may fail, and may die at any point; a run is a sequence of such steps of any length. `WakeChain` is the
transaction a wake token carries. `ControllerFence` is the controller store with its head,
leases and transitions; its ghost histories of heads and admissions are what the run-level statements
are about. `CodexConfig` is the managed line of config.toml, and `ConfigLines` what its scan takes a line for.

## Assumptions

- SHA-256 is injective on the contents in play, so a digest is the content it was computed from; JSON
  encoding and decoding are exact inverses, and a record on disk is the value it encodes.
- Identifiers and temporary names drawn at random are unused.
- Nothing else writes to an installer's surfaces while it runs or recovers.
- Locks exclude and are released when their process ends, so a section that reads, checks and writes
  under a lock is one step.
- Answers are given only for wake tokens that a complete output carried (`WakeToken.Begin`). A token
  guessed before its delivery could be used twice.
- A quality-gate run has the one runner its launcher started; liveness probes are truthful; a
  launcher's scan can read, lock and rewrite every record. A launcher that skipped an unreadable record
  could start a second run.
- Controller records can be read; operations that write hold the mutation lock.

## Model

| member | source | states |
|---|---|---|
| `CliJournal.TempsDiffer` | glm-worker/internal/cliinstall/transaction_recovery.go:444-489 | the temporary files and targets that a journal as the installer stages it names are pairwise different, so cleaning up one never removes another |
| `CliJournal.CleanupKeeps` | glm-worker/internal/cliinstall/transaction_recovery.go:647-670 | removing a temporary file of the journal leaves every surface as it is, and once all binaries are uniform the journal stays recoverable at every step of the clean-up |
| `CliJournal.RestoreKeeps` | glm-worker/internal/cliinstall/transaction_recovery.go:634-645 | putting one binary back to its preimage keeps the journal recoverable |
| `CliJournal.InstallKeeps` | glm-worker/internal/cliinstall/install.go:294-308 | renaming one staged binary into place keeps the journal recoverable |
| `CliRecovery.Observe` | glm-worker/internal/cliinstall/transaction_recovery.go:514-557 | what recovery observes is exactly which surfaces equal their pre- and postimages |
| `CliRecovery.ValidateEvidence` | glm-worker/internal/cliinstall/transaction_recovery.go:559-616 | accepts only when the staged files that are left are the journalled ones and the backups that going back needs are there, and refuses only for a fault or where that fails |
| `CliRecovery.RecoverableHasEvidence` | glm-worker/internal/cliinstall/transaction_recovery.go:559-593 | every state an interrupted installer or recovery can leave passes the evidence check: recovery is never stuck on its own crashes |
| `CliRecovery.Cleanup` | glm-worker/internal/cliinstall/transaction_recovery.go:647-670 | removes temporaries and then the journal; interrupted anywhere it leaves the same installation, recoverable, and the same side (all old or all new) |
| `CliRecovery.RestorePreimages` | glm-worker/internal/cliinstall/transaction_recovery.go:618-632 | restores in reverse until every binary is its preimage; an interruption leaves a recoverable mixture |
| `CliRecovery.Recover` | glm-worker/internal/cliinstall/transaction_recovery.go:223-275 | one recovery, interrupted anywhere: nothing outside the journalled files changes, the side is kept, and if the journal is gone the surfaces are uniformly pre or post; it succeeds when no call fails |
| `CliRecovery.RecoverUntilDone` | glm-worker/internal/cliinstall/transaction_recovery.go:223-275 | any number of interrupted recoveries and a completed one end as a single uninterrupted one would, and one without a fault completes |
| `CliInstall.PlanBinary` | glm-worker/internal/cliinstall/install.go:153-215 | a binary can be planned exactly when its target is missing or intact: what the installer recorded, or, unrecorded, an executable already identical; an existing target is replaced exactly when it is owned under another digest, and one left alone already has the content |
| `CliInstall.PlanInstall` | glm-worker/internal/cliinstall/install.go:130-151 | plans every managed binary against the disk without changing it, and fails only by a fault or when some binary may not be replaced |
| `CliInstall.ReplacingChangesState` | glm-worker/internal/cliinstall/install.go:130-194 | a plan that replaces an existing binary changes the ownership state, so its pre- and postimage differ |
| `CliInstall.StageActions` | glm-worker/internal/cliinstall/install.go:264-292 | stages a replacement and, where there is a target, a backup for each change, touching temporaries only |
| `CliInstall.NewJournal` | glm-worker/internal/cliinstall/transaction_recovery.go:104-203 | the journal names for each change its old and its new image, with both staged on disk, and is recoverable as written |
| `CliCommit.SaveJournal` | glm-worker/internal/cliinstall/transaction_recovery.go:205-221 | the journal appears completely or not at all and disturbs nothing |
| `CliCommit.CommitActions` | glm-worker/internal/cliinstall/install.go:294-308 | installs the binaries one by one; when a call fails the journal is still durable and recoverable with the old state, on success every binary is its postimage |
| `CliCommit.Rollback` | glm-worker/internal/cliinstall/install.go:310-323 | puts the binaries renamed so far back, all of them if no call fails; whatever fails, the journal stays recoverable |
| `CliCommit.ConcludedMeans` | glm-worker/internal/cliinstall/transaction_recovery.go:318-333 | a concluded transaction is the old installation untouched or the planned one with its ownership state |
| `CliCommit.ApplyInstall` | glm-worker/internal/cliinstall/transaction_recovery.go:59-102 | an install stopped anywhere leaves the old installation, or a durable recoverable journal of exactly this plan, or the planned installation; after the state rename never the old one; without a fault it fails only over an unusable state file |
| `CliCommit.InstallUnlocked` | glm-worker/internal/cliinstall/install.go:75-95 | recovery, planning and applying together settle in the same way |
| `CliCommit.Install` | glm-worker/internal/cliinstall/install.go:75-95 | every run, wherever it stops, leaves a disk the next run can handle; a successful one leaves the build and an ownership state that records it in force; a run succeeds when no call fails and the recovered disk can take the build. Where nothing is installed, or all that is managed is recorded and as recorded, any build of executables installs unless a call fails, all of it owned, and leaves such a disk again |
| `CliCommit.CanPlanIff` | glm-worker/internal/cliinstall/install.go:130-215 | what an install needs of the disk, file by file: executables in the build, no state file or a sound one, and under each target nothing, the recorded binary, or an unrecorded executable of the same content |
| `CliCommit.FreshOrOwnedCanPlan` | glm-worker/internal/cliinstall/install.go:325-335 | a missing state file is the empty ownership: a first install is not refused, nor one over owned, untouched binaries |
| `CliCommit.InstallCrashRecover` | glm-worker/internal/cliinstall/transaction_recovery.go:59-102 | crash atomicity: an install stopped at any step, any number of interrupted recoveries and a completed one give all new exactly when the new installation was complete at the stop, and all old otherwise; it was complete once the state had been renamed, and before that only if the plan leaves the state as it was |
| `CodexJournal.WriteAtomic` | glm-worker/internal/codexinstall/transaction_recovery.go:139-148 | an atomic write changes the one file or nothing |
| `CodexJournal.Inspect` | glm-worker/internal/codexinstall/transaction_recovery.go:296-336 | reads every surface, and fails only by a fault or over a surface that is neither of its images |
| `CodexJournal.RestorePreimages` | glm-worker/internal/codexinstall/transaction_recovery.go:338-353 | restores in reverse; interrupted it leaves every surface pre or post with the journal in place |
| `CodexJournal.Recover` | glm-worker/internal/codexinstall/transaction_recovery.go:272-294 | finalises all-post or restores all-pre; the journal disappears only over uniform surfaces; a surface that is neither image, or a state that is ahead, is refused and left alone; nothing else but a fault is |
| `CodexInstall.MutationPaths` | glm-worker/internal/codexinstall/transaction.go:136-153 | the journalled paths are exactly the surfaces the install writes, each once |
| `CodexInstall.NewJournal` | glm-worker/internal/codexinstall/transaction_recovery.go:54-137 | pairs each surface's image on disk with the image the install will give it; fails only by a fault, or over a surface outside the managed roots or not a regular file |
| `CodexInstall.MutationTracker.Record` | glm-worker/internal/codexinstall/transaction.go:194-204 | remembers what a mutation wrote, once and in order |
| `CodexInstall.MutationTracker.RollbackMutations` | glm-worker/internal/codexinstall/transaction.go:206-230 | puts every recorded surface that still is what this process wrote back to its preimage and leaves every other as it is; succeeds only when all recorded ones are preimages, and does if nothing interfered and no call fails |
| `CodexInstall.RollbackAttempt` | glm-worker/internal/codexinstall/transaction.go:77-92 | removes the journal only after every surface matches its preimage, and does remove it if every change was recorded, nothing interfered and no call fails |
| `CodexCommit.ApplyObsoleteRemovals` | glm-worker/internal/codexinstall/files.go:199-225 | on success every obsolete file is gone; without a fault it succeeds exactly when each was gone or still the recorded one; no other surface changes, every step stays in flight, and while no call fails the tracker accounts for every change |
| `CodexCommit.ApplyDesiredFiles` | glm-worker/internal/codexinstall/files.go:227-250 | on success each desired path has the image of its first entry that differed from the installed file, or is untouched with its mode; without a fault it succeeds exactly when no entry is refused, by ownership or by an earlier write to its path; no other surface changes and the tracker accounts for every change |
| `CodexCommit.ApplyInstall` | glm-worker/internal/codexinstall/transaction.go:28-75 | an install stopped anywhere leaves the old surfaces, or a journal of exactly this plan with every surface pre, post or as the run just wrote it, or the applied plan once the state was written; the journal goes before that only over all-pre surfaces; no other surface changes; without a fault no journal stays, and the install succeeds exactly when everything it checks holds of the disk it started from. Once the state is written every desired file has its content, what was to be removed is gone, config.toml is the planned text, and the state records exactly the desired files in order and the config line |
| `CodexCommit.LandedIsPostIff` | glm-worker/internal/codexinstall/transaction_recovery.go:66-96 | the applied plan is the journalled postimage if and only if every desired path ended with the image the journal takes it to: files with unchanged content already had the source mode |
| `CodexCommit.CommittedCrashIff` | glm-worker/internal/codexinstall/transaction_recovery.go:296-336 | a crash after the state commit is recognised as committed if and only if the modes were settled; otherwise recovery refuses for good, unless the state did not change |
| `CodexCommit.CommittedFits` | glm-worker/internal/codexinstall/transaction_recovery.go:296-336 | for every plan whose steps apply, the disk between state commit and journal removal fits the stopped install, and recovery refuses it for good if and only if the modes were not settled and the state changed |
| `CodexCommit.ModeMismatchSticks` | glm-worker/internal/codexinstall/files.go:227-250 | a family of installs for which that happens: one unchanged file with a new source mode and one new file |
| `CodexInstall.ProceedingIsJournalled` | glm-worker/internal/codexinstall/files.go:227-250 | a run whose entries are all accepted writes each path at most once, by its last entry, so everything it writes is the journalled postimage |
| `CodexInstall.ConsistentIff` | glm-worker/internal/codexinstall/transaction_recovery.go:296-336 | a disk in transit has every surface pre or post if and only if it holds no write that the journal does not know |
| `CodexCommit.StopsRecoverIff` | glm-worker/internal/codexinstall/files.go:227-250 | for every disk and plan: each stop among the file steps can be recovered if and only if every write a run gets to is the journalled postimage; right after one that is not, the disk fits the stopped install and every recovery refuses it |
| `CodexCommit.RepeatedTargetSticks` | glm-worker/internal/codexinstall/files.go:29-45 | a family of installs for which that happens: a first install whose source tree names one path twice with different contents |
| `CodexCommit.DistinctIsJournalled` | glm-worker/internal/codexinstall/files.go:29-45 | a plan that names every target once meets the condition |
| `CodexCommit.InstallCrashRecover` | glm-worker/internal/codexinstall/transaction.go:28-75 | for every plan, an install stopped at any step and any number of recoveries: refused for good exactly when the stop left a write the journal does not know, or the state with unsettled modes; otherwise all post exactly when all was post at the stop, all pre if not, and a recovery without a fault gets there |
| `CodexCommit.PlannedConfigCarries` | glm-worker/internal/codexinstall/config.go:129-145 | the config plan of the planner, applied to the text it was made for, passes the check before the state commit |
| `CodexPlan.LoadState` | glm-worker/internal/codexinstall/transaction.go:105-121 | without a fault it fails exactly for a state file that is invalid, such as one that names a path twice; otherwise it reads what the file records, and an absent one as empty |
| `CodexPlan.PlanObsolete` | glm-worker/internal/codexinstall/files.go:166-186 | without a fault it lists exactly the recorded files that no source asks for and that still are as installed, each once |
| `CodexPlan.PrepareInstall` | glm-worker/internal/codexinstall/install.go:40-62 | without a fault it fails exactly when the state is invalid, a desired path is neither owned and intact nor free, or the config line cannot be planned; otherwise the preparation is that of this disk |
| `CodexPaths.CleanRelativeIff` | glm-worker/internal/codexinstall/state.go:116-125 | a managed path is accepted if and only if it is clean names with single slashes between them, or `..` alone |
| `CodexPaths.SurfaceIff` | glm-worker/internal/codexinstall/transaction_recovery.go:245-253 | the journal takes exactly the rules file and the clean paths below the two managed roots |
| `CodexReinstall.PreparedInstallsIff` | glm-worker/internal/codexinstall/install.go:40-66 | what was just prepared passes every check of the install if and only if no destination is named twice over a content that is not installed |
| `CodexReinstall.InstalledIsReadableIff` | glm-worker/internal/codexinstall/state.go:62-71 | a successful install leaves a valid state file if and only if its sources named every destination once |
| `CodexReinstall.UpdateCanPrepareIff` | glm-worker/internal/codexinstall/files.go:89-164 | after an install any next sources can be prepared if and only if their destinations are owned or free and the config line can be planned; obsolete are exactly the destinations that are gone from the sources |
| `CodexReinstall.UpdateConfigIff` | glm-worker/internal/codexinstall/config.go:32-103 | after an install the config line of any next sources can be planned unless they are malformed or the user had set the key to another value |
| `CodexReinstall.SecondPlanIsIdle` | glm-worker/internal/codexinstall/files.go:89-110 | preparing the installed sources again is accepted and finds nothing to write, remove or change |
| `CodexReinstall.InstallFromDisk` | glm-worker/internal/codexinstall/install.go:19-66 | preparing and applying: without a fault it succeeds exactly when the sources can be prepared and repeat nothing over another content; a success leaves them installed and owned, the obsolete files gone and all others as they were; where they were installed already no surface changes |
| `CodexReinstall.InstallAfter` | glm-worker/internal/codexinstall/install.go:19-66 | the install after a successful one, from any sources: refused only for what the first does not own, it removes what only the first had; after sources that named a destination twice nothing can be installed |
| `CodexReinstall.RepeatedTargetLocksOut` | glm-worker/internal/codexinstall/files.go:29-45 | a family of installs for which that happens |
| `EpisodeGraph.OrderedGraphHasNoCycle` | glm-worker/internal/controller/episode.go:354-393 | a dependencies-first order of everything visited rules out a cycle |
| `EpisodeGraph.OrderClosedUnderReach` | glm-worker/internal/controller/episode.go:440-464 | what an emitted path reaches is emitted before it |
| `EpisodeClosure.CombinedGraphEdges` | glm-worker/internal/controller/episode.go:354-376 | the combined graph has exactly the canonical dependencies and the episode edges not yet satisfied |
| `EpisodeClosure.CombineDependencies` | glm-worker/internal/controller/episode.go:423-438 | the loop over the edges builds that graph |
| `EpisodeClosure.CycleCheck.Visit` | glm-worker/internal/controller/episode.go:378-393 | a three-colour visit finishes everything reachable in dependency order, or fails only on a real cycle |
| `EpisodeClosure.ValidateEpisodeAcyclic` | glm-worker/internal/controller/episode.go:354-376 | reports an error if and only if the combined graph has a cycle, whatever order the map is walked in |
| `EpisodeClosure.ClosureWalker.SortedDependencies` | glm-worker/internal/controller/episode.go:440-464 | the canonical and episode dependencies of a path, sorted and without repetition |
| `EpisodeClosure.ClosureWalker.Walk` | glm-worker/internal/controller/episode.go:440-464 | emits dependencies before dependents, only what the root reaches, all of it known to the authority; fails only for a cycle or a task outside the authority |
| `EpisodeClosure.BuildEpisodeClosure` | glm-worker/internal/controller/episode.go:395-421 | on success the order has no duplicates, holds exactly the paths reachable from the scope root, dependencies first, and the closure is its sorted permutation; it fails only if the combined graph has a cycle or the root reaches a task outside the authority |
| `EpisodeClosure.CompleteBlockingRevision` | glm-worker/internal/controller/episode.go:243-276 | completes if and only if the graph with the new edge is acyclic and reaches only known tasks, and explains why not; the result is an admitted order, keeps the edges and adds the one from source to target unless that pair is there, remembers the source as executed, and has an unsatisfied target before the source |
| `EpisodeSchedule.EdgeStandsEarlier` | glm-worker/internal/controller/episode.go:490-519 | an unsatisfied edge of an admitted task leads to an earlier entry of the order |
| `EpisodeSchedule.FirstUnsatisfiedReadyIff` | glm-worker/internal/controller/episode.go:490-510 | the first unsatisfied task is ready if and only if no edge of it waits for a stale reference |
| `EpisodeSchedule.FirstUnsatisfiedScheduledIff` | glm-worker/internal/controller/episode.go:466-510 | the first unsatisfied task is the one returned if and only if no edge of it waits for a stale reference |
| `EpisodeSchedule.ScheduledTaskIsReady` | glm-worker/internal/controller/episode.go:466-519 | a returned task is an unsatisfied entry all of whose edges are satisfied, and every entry before it is satisfied or waits |
| `EpisodeSchedule.DeadlockIff` | glm-worker/internal/controller/episode.go:466-510 | the scheduler returns that nothing is runnable if and only if the scope root is unsatisfied and every unsatisfied entry of the order has an unsatisfied edge |
| `EpisodeSchedule.SatisfiedOrderDeadlockIff` | glm-worker/internal/controller/episode.go:466-488 | with the whole order satisfied the root is resumed if and only if the scope root's own reference is satisfied, which a deadlock shows to be stale |
| `EpisodeSchedule.ScheduleNeverDeadlocks` | glm-worker/internal/controller/episode.go:466-488 | over current references the scheduler returns the first unsatisfied task of the admitted order, or resumes the root; never that nothing is runnable |
| `EpisodeSchedule.ScheduledTaskIsUnblocked` | glm-worker/internal/controller/episode.go:466-510 | when the first unsatisfied task waits for no stale reference, everything the returned task reaches in the combined graph is satisfied |
| `EpisodeSchedule.StaleReferenceStartsBlockedTask` | glm-worker/internal/controller/episode.go:466-510 | otherwise that fails: a completed revision whose scheduler goes on past a stale wait and starts a task with an unsatisfied canonical dependency |
| `EpisodeSchedule.StaleReferenceDeadlocks` | glm-worker/internal/controller/episode.go:490-510 | a completed revision with a stale dependency reference whose scheduler deadlocks |
| `EpisodeSchedule.StaleScopeRootDeadlocks` | glm-worker/internal/controller/episode.go:466-488 | so does one whose scope root is only satisfied by its current reference |
| `EpisodeSchedule.ProjectScheduleSafe` | glm-worker/internal/controller/episode_scheduler_authority.go:53-148 | a returned task is in the closure, unsatisfied, in NEXT and not in BLOCKED, has no outstanding canonical dependency and all episode dependencies satisfied; nothing is runnable exactly when some closure task is misplaced, which the reason names, or no task of NEXT is ready; the root is resumed exactly when its path is satisfied |
| `EpisodeSchedule.ProjectSchedulePicks` | glm-worker/internal/controller/episode_scheduler_authority.go:53-148 | a resumed task is the runnable one executed last; a task is started only when none that was executed is runnable, and is then the first of NEXT that is runnable and was not executed; the reason for running nothing names the first misplaced closure task |
| `EpisodeSchedule.ScheduleAgainstProject` | glm-worker/internal/controller/episode_scheduler_authority.go:11-51 | refuses exactly a project of another snapshot, or one that lacks an unsatisfied closure task or has another reference for it |
| `EpisodeSchedule.CompletedIsOrdered` | glm-worker/internal/controller/episode_scheduler_authority.go:93-148 | in an admitted revision every episode edge of a task leads to something satisfied or earlier in the order, and order and closure have the same paths |
| `EpisodeSchedule.OutstandingWaits` | glm-worker/internal/controller/episode_scheduler_authority.go:131-148 | an outstanding canonical dependency of a task leaves an unsatisfied task before it in the order |
| `EpisodeSchedule.ProjectScheduleProgress` | glm-worker/internal/controller/episode_scheduler_authority.go:53-129 | for an order that is topological for the outstanding canonical dependencies, with every unsatisfied closure task in NEXT and none in BLOCKED, some task is returned until the scope root is satisfied |
| `EpisodeProgress.RebindingsCompose` | glm-worker/internal/controller/episode_progression.go:108-221 | rebinding forgets: once a second project knows every task of the first, rebinding to one after the other leaves the same order, closure, edges and scope root as rebinding to the second alone |
| `EpisodeProgress.RebindEpisodeRefs` | glm-worker/internal/controller/episode_progression.go:193-207 | rebinds all or refuses, keeping paths and positions |
| `EpisodeProgress.RebindEpisodeEdges` | glm-worker/internal/controller/episode_progression.go:171-191 | rebinds both ends of every edge or refuses |
| `EpisodeProgress.ProgressedEpisodeRevision` | glm-worker/internal/controller/episode_progression.go:108-169 | succeeds if and only if everything unsatisfied is still a task of the project; every reference becomes the project's last one for its path or stays, the history is kept, and the satisfied task is added unless its path is there |
| `EpisodeProgress.ProgressKeeps` | glm-worker/internal/controller/episode_progression.go:108-169 | a progressed revision keeps paths and order, passes the schedule validation for the same project, and loses no satisfied path |
| `EpisodeProgress.SatisfiedEntrySeenIff` | glm-worker/internal/controller/episode_progression.go:108-142 | after rebinding, the reference-based scheduler sees a satisfied entry if and only if the recorded reference is still the project's; the path-based one always does |
| `EpisodeProgress.SatisfiedTaskRunsAgainIff` | glm-worker/internal/controller/episode.go:466-488 | a revision replanned over satisfied references runs a satisfied task again if and only if the reference recorded for it is not the project's, when its turn comes and it does not wait |
| `EpisodeProgress.SatisfiedTaskRunsAgain` | glm-worker/internal/controller/episode_progression.go:108-142 | an episode in which that happens: the task is scheduled, satisfied, rebound to a new reference, and scheduled again |
| `EpisodeProgress.ProgressShrinks` | glm-worker/internal/controller/episode_progression.go:108-142 | a newly satisfied closure path strictly shrinks the unsatisfied set |
| `EpisodeProgress.EpisodeRunsEnd` | glm-worker/internal/controller/episode_progression.go:16-58 | every step of a run satisfies one more closure task, so it is no longer than the closure |
| `EpisodeProgress.RunsReachTheRoot` | glm-worker/internal/controller/episode_scheduler_authority.go:53-129 | while the project lets the episode go on, a run can be extended if and only if the scope root is unsatisfied; one that made a step and cannot be has reached resuming-root |
| `TokenSegments.FileTokenAnchorBounds` | glm-worker/internal/bundleanalysis/bundle_analysis_tokens.go:37-52 | finds the first and the last anchor of a file, or that it has none |
| `TokenSegments.SplitByFile` | glm-worker/internal/bundleanalysis/bundle_analysis_tokens.go:3-35 | the loop over file numbers makes one segment per file that has anchors: up to the file's last anchor, from its first after a continuation and from nothing after a restart |
| `TokenSegments.SegmentField` | glm-worker/internal/bundleanalysis/bundle_parent_usage.go:276-308 | the total when every segment can be valued; otherwise 0 and what is missing in the first one that cannot |
| `TokenSegments.ValuedIffMeasurable` | glm-worker/internal/bundleanalysis/bundle_parent_usage.go:276-308 | a field can be valued if and only if it is known at both ends, at the anchor before every boundary crossed and after every continued one |
| `TokenSegments.SumIsWalk` | glm-worker/internal/bundleanalysis/bundle_parent_usage.go:276-308 | the per-file formula equals the walk from anchor to anchor (a restart adds its value, everything else its gain), whatever is put where a field is missing in between |
| `TokenSegments.SumIsDifference` | glm-worker/internal/bundleanalysis/bundle_parent_usage.go:276-308 | usage is end minus baseline plus what the restarts left behind; just end minus baseline when every boundary continues |
| `TokenSegments.MeasurableParts` | glm-worker/internal/bundleanalysis/bundle_parent_usage.go:276-308 | two adjacent intervals can be valued if and only if the whole can and the field is known where they meet |
| `TokenSegments.UsageIsAdditive` | glm-worker/internal/bundleanalysis/bundle_parent_usage.go:276-308 | usage(a,c) = usage(a,b) + usage(b,c) |
| `TokenUsage.FellIffDrop` | glm-worker/internal/bundleanalysis/bundle_analysis_tokens.go:123-157 | remembering the last known value of each field finds a reset if and only if some known value dropped, also across anchors that omit the field |
| `TokenUsage.CountersResetBetween` | glm-worker/internal/bundleanalysis/bundle_analysis_tokens.go:123-138 | the loop reports exactly that |
| `TokenUsage.SegmentsCounterReset` | glm-worker/internal/bundleanalysis/bundle_analysis_tokens.go:54-72 | a reset is reported if and only if a known counter went down between two anchors of one file within the interval |
| `TokenUsage.NoResetNoNegative` | glm-worker/internal/bundleanalysis/bundle_analysis_tokens.go:94-157 | without a reported reset no segment with a baseline is negative |
| `TokenUsage.NoResetUsageNotNegative` | glm-worker/internal/bundleanalysis/bundle_parent_usage.go:276-308 | then usage is not negative either, if the values restarted files end with are not |
| `TokenUsage.LastTokenAnchorAtOrBefore` | glm-worker/internal/bundleanalysis/bundle_analysis.go:648-659 | the last anchor before the first one later than the bound, or none |
| `TokenUsage.AnchoredTokens` | glm-worker/internal/bundleanalysis/bundle_parent_usage.go:240-274 | which of the statuses is reported and, when available, each field's total or that it is unknown |
| `TokenUsage.AdjacentReports` | glm-worker/internal/bundleanalysis/bundle_parent_usage.go:240-274 | reports of adjacent intervals of time: a reset in a part shows in the whole, totals add up field by field, and with both parts available the whole is too exactly when no field drops across an anchor between them that omits it |
| `TokenUsage.ResetOfTheWholeIff` | glm-worker/internal/bundleanalysis/bundle_analysis_tokens.go:123-157 | of two parts without a reset the whole has one if and only if, within one file, some field is lower when first known after the anchor between them than when last known before it |
| `TokenUsage.PartsCanHideAReset` | glm-worker/internal/bundleanalysis/bundle_analysis_tokens.go:123-138 | a scan in which such a drop shows in the whole and in neither part |
| `RolloutChain.SortByStart` | glm-worker/internal/codexrollout/chain.go:56-62 | sorts by first timestamp, then path, keeping all candidates |
| `RolloutChain.ResolveChain` | glm-worker/internal/codexrollout/chain.go:52-81 | finds the chain if and only if the candidates in some order form one, and it is the only such order; the flags say which files continue the counters |
| `RolloutChain.ChainableIff` | glm-worker/internal/codexrollout/chain.go:63-80 | the checks made one after the other amount to the definition of a chain |
| `RolloutChain.CounterBoundaries` | glm-worker/internal/codexrollout/chain.go:190-242 | fails unless every file ends with a known total and every boundary continues or restarts |
| `RolloutChain.BoundaryIff` | glm-worker/internal/codexrollout/chain.go:220-275 | a file continues the one before it if and only if its first token event reports, all five known and none negative, the counters of the other's last; it restarts them if and only if its first total is another one, and that turn's own or a smaller one |
| `RolloutChain.BoundaryNeedsEvents` | glm-worker/internal/codexrollout/chain.go:207-230 | a file has an anchor if and only if its last token event has a total; without token events it has no boundary |
| `RolloutScan.Scanner.ScanFile` | glm-worker/internal/bundleanalysis/bundle_analysis.go:435-457 | appends the file's anchors with growing offsets and its continuation flag |
| `RolloutScan.ResolvedScanIsExact` | glm-worker/internal/codexrollout/chain.go:190-275 | every scan of a resolved chain is ordered, and each continued file starts with exactly the counters the file before ended with |
| `RolloutScan.ResolveAndScan` | glm-worker/internal/codexrollout/chain.go:52-81 | from candidate files to anchors for which the walk theorem holds |
| `ShellLexer.CommentOffset` | glm-worker/internal/commentlint/commentlint.go:481-492 | the first unquoted # at the start of the line or of a word, or none |
| `ShellLexer.HeredocDelimiters` | glm-worker/internal/commentlint/commentlint.go:385-472 | the loop with its index jumps reads the delimiters from left to right |
| `ShellLexer.DelimitersPadded` | glm-worker/internal/commentlint/commentlint.go:385-472 | appending blanks changes no here-document delimiter |
| `ShellLexer.BlankedHasNoComment` | glm-worker/internal/commentlint/commentlint.go:481-492 | overwriting from the first comment on leaves no comment |
| `ShellScan.ScanShellLines` | glm-worker/internal/commentlint/commentlint.go:333-356 | the loop and its recursion over the body of an unterminated document compute the scan; the recursion ends |
| `ShellScan.FindingsInOrder` | glm-worker/internal/commentlint/commentlint.go:333-372 | at most one finding a line, each ending before the next starts, and each the comment of its line, also when lines are scanned again |
| `ShellText.OpensDocument` | glm-worker/internal/commentlint/commentlint.go:385-472 | after plain text `<<` or `<<-`, blanks and a word, quoted or not, open the document of that word, and reading goes on right behind it |
| `ShellText.QuotedIsSkipped` | glm-worker/internal/commentlint/commentlint.go:385-403 | what stands between quotes opens no document |
| `ShellText.CommentStartsIff` | glm-worker/internal/commentlint/commentlint.go:481-492 | the first number sign after unquoted text starts a comment if and only if it is at the start of the line or behind a separator |
| `ShellText.QuotedSignIsNone` | glm-worker/internal/commentlint/commentlint.go:481-492 | a number sign between quotes starts none |
| `ShellText.CommentIsReported` | glm-worker/internal/commentlint/commentlint.go:358-376 | a comment is reported from its sign to the end of the line, but for the two interpreter lines |
| `ShellText.EndsIff` | glm-worker/internal/commentlint/commentlint.go:378-383 | a line ends a document if and only if it is the word behind any number of tabs, and behind none unless the document strips them |
| `ShellText.DocumentsAreSkipped` | glm-worker/internal/commentlint/commentlint.go:333-356 | the bodies and closing lines of the documents a line opens give no finding, and the scan goes on as code right behind the last one |
| `ShellText.DocumentIsSkipped` | glm-worker/internal/commentlint/commentlint.go:333-356 | the same written out in characters for one document |
| `ShellText.UnterminatedIsCode` | glm-worker/internal/commentlint/commentlint.go:333-356 | the lines behind the opener of a document that is never closed are scanned as code |
| `ShellRemoval.EditedIsSilent` | glm-worker/internal/commentlint/commentlint.go:358-403 | an edited line is not reported and opens the documents its original opened |
| `ShellRemoval.EditedNotTerminating` | glm-worker/internal/commentlint/commentlint.go:378-383 | no edited line terminates a here-document, before or after its edit |
| `ShellRemoval.Rescan` | glm-worker/internal/commentlint/commentlint.go:333-356 | scanning the edited lines in step with the original ones, through unterminated documents, finds nothing |
| `ShellBytes.SplitLines` | glm-worker/internal/commentlint/commentlint.go:323-331 | cuts the file into all its lines, in order |
| `ShellBytes.LineBounds` | glm-worker/internal/commentlint/commentlint.go:587-602 | the line around a position, its content end and the next line |
| `ShellBytes.LineCommentsOnly` | glm-worker/internal/commentlint/commentlint.go:604-622 | for a line with one finding: only blanks around it |
| `ShellBytes.EndsWithLineContinuation` | glm-worker/internal/commentlint/commentlint.go:633-639 | an odd number of backslashes ends the line before |
| `ShellBytes.FindingEdits` | glm-worker/internal/commentlint/commentlint.go:565-585 | a finding within one line gets one edit: the whole line if the comment is all of it and the line before does not continue, blanks otherwise |
| `ShellBytes.ApplyEdits` | glm-worker/internal/commentlint/commentlint.go:641-652 | keeps the bytes between the edits, in order |
| `ShellBytes.EditsRewriteLines` | glm-worker/internal/commentlint/commentlint.go:641-652 | applying the edits rewrites the file line by line |
| `ShellFix.FindingIsOnItsLine` | glm-worker/internal/commentlint/commentlint.go:557-585 | every finding of a scan lies on its own line and no other finding touches that line |
| `ShellFix.RemoveFindings` | glm-worker/internal/commentlint/commentlint.go:557-563 | the result is the file with exactly the reported lines edited |
| `ShellFix.ResultIsEdited` | glm-worker/internal/commentlint/commentlint.go:557-585 | the lines of the result are the lines of the original, but for overwritten comments and dropped comment-only lines, all of them reported |
| `ShellFix.RemovalIsFixpoint` | glm-worker/internal/commentlint/commentlint.go:323-372 | scanning the result reports nothing |
| `ShellFix.RemoveComments` | glm-worker/internal/commentlint/commentlint.go:557-563 | scan and removal together: a second scan finds nothing, a second removal changes nothing, and a script without findings is unchanged |
| `SelfResume.WaitForReset` | glm-worker/internal/app/execution.go:474-495 | lets the loop go on only once the reset has passed |
| `SelfResume.WaitForSpacing` | glm-worker/internal/app/execution.go:497-531 | lets a post-reset attempt go on only ten seconds after the previous attempt started |
| `SelfResume.NextFits` | glm-worker/internal/app/execution.go:391-403 | a boundary attempted before has passed, so it comes again only right after itself |
| `SelfResume.AttemptsAreBounded` | glm-worker/internal/app/execution.go:19-24 | a disciplined run makes at most thirteen attempts for one reset boundary |
| `SelfResume.RunSelfResume` | glm-worker/internal/app/execution.go:375-405 | every run of the loop, watched for any number of calls, is disciplined: at most 13 attempts a boundary, post-reset attempts at least 10 seconds apart; each attempt answers a call that was rate-limited, for its boundary; and a loop that is not disturbed resumes after every such call, unless the boundary is unusable, passed and not the one waited for last, or passed two minutes ago |
| `SelfResume.ThirteenAttemptsFit` | glm-worker/internal/app/execution.go:407-430 | the bound is tight for the discipline that every run obeys: thirteen attempts ten seconds apart satisfy it, for any boundary; that the loop produces them is not shown |
| `WakeToken.InvStep` | glm-worker/internal/app/codex_wake_token_state.go:57-140 | every file operation of every process, failing or not, and every crash keeps the token invariant |
| `WakeToken.TokenLifecycle` | glm-worker/internal/app/codex_wake_token_state.go:57-140 | over all interleavings and crashes a token has at most one of its three files, one handed out and not used up has exactly one, and a completely delivered one is never claimable again |
| `WakeToken.DeliveredOnce` | glm-worker/internal/app/codex_wake_transaction.go:126-131 | no response is completely delivered twice for one token |
| `WakeToken.CrashBeforeDelivery` | glm-worker/internal/app/codex_wake_token_state.go:57-107 | a process that dies before delivery starts leaves its token to the next one |
| `WakeToken.IncompleteDelivery` | glm-worker/internal/app/codex_wake_transaction.go:87-97 | from an incomplete delivery to a working restore by the same process, with no crash of it in between: the token is active again, the successor was never handed out and has no file if undoing it worked, whatever other processes did |
| `WakeToken.TokenHandedOn` | glm-worker/internal/app/codex_wake_token_state.go:57-140 | from any reachable state: a ready token, claimed, advanced, marked and delivered, ends used up and without a file, with its successor handed out and nothing else changed |
| `WakeToken.FailedDeliveryUndone` | glm-worker/internal/app/codex_wake_token_state.go:57-140 | a delivery that failed, undone and restored, leaves everything as it was before the claim |
| `WakeToken.AbandonedClaimUndone` | glm-worker/internal/app/codex_wake_token_state.go:57-140 | a claim given up before the delivery, for whatever reason, undone and restored, leaves everything as it was |
| `WakeToken.PlanIsReady` | glm-worker/internal/app/codex_wake_token_state.go:57-140 | a written plan leaves a ready token; a withdrawn one only spends its nonce |
| `WakeChain.DecodeInvertsEncode` | glm-worker/internal/autoresume/codex_wake_transaction.go:266-303 | with checksum and encoding taken as injective (a token is the payload and the digest it claims), exactly the encodings of valid transactions are accepted, each as itself |
| `WakeChain.UuidIff` | glm-worker/internal/autoresume/codex_wake_transaction.go:79 | a thread identifier is five groups of 8, 4, 4, 4 and 12 hexadecimal digits with dashes between them |
| `WakeChain.BuildTransaction` | glm-worker/internal/autoresume/codex_wake_transaction.go:83-126 | succeeds if and only if the identifiers are well-formed and fit and the reset evidence agrees and lies ahead; the token then decodes to a valid first transaction, due two minutes after the reset, and asks for the write that fits it |
| `WakeChain.AdvanceIsOneStep` | glm-worker/internal/autoresume/codex_wake_response.go:35-124 | a successor is asked for exactly after a fitting creation or after a fitting update whose saved state is wrong, and is valid, one step further and of the same plan |
| `WakeChain.PlanVerifiedIff` | glm-worker/internal/autoresume/codex_wake_response.go:35-124 | a plan ends verified exactly when its creation, if it has one, succeeds and then an update is saved as asked, at once or after one retry; what is verified is of the plan |
| `WakeChain.FailureCleansUp` | glm-worker/internal/autoresume/codex_wake_response.go:47-124 | a failure asks to delete what the transaction created or to pause what it was fired from |
| `WakeChain.ChainEnds` | glm-worker/internal/autoresume/codex_wake_response.go:35-124 | any three answers end the chain verified or failed; until then every token decodes to a valid transaction of the plan |
| `WakeChain.TokensIdentifyTransactions` | glm-worker/internal/autoresume/codex_wake_transaction.go:249-264 | within one plan nonce and step identify the transaction, as the token files assume |
| `QualityGate.InvStep` | glm-worker/internal/app/quality_gate_execution.go:46-99 | every step of launchers, runners, observers and time keeps the record invariant |
| `QualityGate.AtMostOneRunning` | glm-worker/internal/app/quality_gate_execution.go:46-99 | at most one running record exists for a form, repository, directory, snapshot and set of Darwin tests |
| `QualityGate.PublishedStaysSettled` | glm-worker/internal/app/quality_gate_persistence.go:22-82 | a record whose runner published itself never changes again once it left running |
| `QualityGate.HowRecordsSettle` | glm-worker/internal/app/quality_gate_execution.go:313-362 | such a record leaves running by its own runner's result or, when that runner is gone, as interrupted, and the next reconciliation then settles it |
| `QualityGate.ReconcileSettles` | glm-worker/internal/app/quality_gate_persistence.go:22-82 | reconciling interrupts a running record exactly when its published runner is gone or, unpublished, thirty seconds after its start |
| `QualityGate.GateRuns` | glm-worker/internal/app/quality_gate_execution.go:46-99 | where nobody launches and no record is running for the request, a launcher can scan, start its run and see it settle with its result, every other record reconciled |
| `QualityGate.BadLaunchSettles` | glm-worker/internal/app/quality_gate_execution.go:46-99 | a failed launch leaves a failed record and a dead runner an interrupted one, published or not, and the launcher is away again |
| `ControllerFence.Store.WriteHeadCAS` | glm-worker/internal/controller/store.go:243-255 | replaces the head only over the expected generation and only by a larger one, and then always unless the write fails |
| `ControllerFence.Store.AdmitMutation` | glm-worker/internal/controller/admission.go:113-217 | admits exactly the claims that name the live authority of an active head with nothing pending under a lease of its generation |
| `ControllerFence.Store.BootstrapExecution` | glm-worker/internal/controller/admission.go:12-111 | a pristine controller gets generation 1 with a lease that is then admissible; unless a write fails it succeeds exactly for a committed task that may run in the primary workspace, or when the execution named by the head is live |
| `ControllerFence.Store.RecordMutation` | glm-worker/internal/controller/mutation_record.go:11-63 | moves the authority to a new lease of the next generation; the old lease is refused from then on; unless a write fails or the generation would wrap around it succeeds exactly for a claim that is admissible |
| `ControllerFence.Store.Prepare` | glm-worker/internal/controller/authority_transition.go:41-58 | only over an active head with nothing pending and of the source generation, and then always unless a write fails or the generation would wrap around |
| `ControllerFence.Store.Commit` | glm-worker/internal/controller/authority_resolution.go:26-79 | publishes the new authority only over the prepared head with all effects proven, and then always unless a write fails or the generation would wrap around |
| `ControllerFence.Store.Finalize` | glm-worker/internal/controller/authority_resolution.go:81-113 | only a committed transition of an active head finalizes, to its target generation, and it always does unless a write fails or the generation would wrap around |
| `ControllerFence.Store.AbortPublication` | glm-worker/internal/controller/publication_abort.go:41-58 | giving up a prepared publication skips to its target generation |
| `ControllerFence.Store.FailClose` | glm-worker/internal/controller/transition_state.go:45-94 | closing drops the live lease; nothing is admitted afterwards; it works unless the write fails or the generation would wrap around |
| `ControllerFence.Store.ChangeAuthority` | glm-worker/internal/controller/authority_transition.go:8-78 | prepare, commit and finalize hand over: three generations later the source lease is refused and the target lease admissible; unless a write fails or the generation would wrap around it succeeds exactly for an admissible source and proven effects |
| `ControllerFence.LeasesAreFenced` | glm-worker/internal/controller/admission.go:201-217 | over any run a lease is never admitted at two generations, and every admission was made under an active head with nothing pending |
| `ControllerFence.NothingAdmittedWhilePending` | glm-worker/internal/controller/admission.go:131-155 | over any run nothing was ever admitted at the generation of a head with a pending transition, nor from a head closed on failure on |
| `CodexConfig.FindTopLevelAssignment` | glm-worker/internal/codexinstall/config.go:170-197 | the loop finds the one top-level assignment before the first table, and fails for an empty or a second one |
| `ConfigLines.AssignmentIff` | glm-worker/internal/codexinstall/config.go:170-215 | a line assigns the key if and only if it is, between blanks, the key, bare, in single quotes or as a double-quoted string, an equals sign, the value, and possibly a comment |
| `ConfigLines.TableIff` | glm-worker/internal/codexinstall/config.go:178-180 | a line ends the top level if and only if its first character that is not blank is an opening bracket |
| `ConfigLines.FindIff` | glm-worker/internal/codexinstall/config.go:170-197 | the scan finds a line if and only if it is the only assignment before the first table and not empty, and nothing if and only if there is none |
| `ConfigLines.PlanRefusedIff` | glm-worker/internal/codexinstall/config.go:62-103 | a plan is refused if and only if a text cannot be scanned, an owned line that is still wanted is gone or changed, or the user set another value |
| `CodexConfig.LinesOfJoin` | glm-worker/internal/codexinstall/config.go:217-225 | splitting what was joined gives the lines back |
| `CodexConfig.ClassifierReads` | glm-worker/internal/codexinstall/config.go:170-215 | the line written for a plain key and value reads back as that value, and every value read can be written |
| `CodexConfig.PlanReadsBack` | glm-worker/internal/codexinstall/config.go:62-103 | the planned text carries the recorded line and the managed value |
| `CodexConfig.PlanIsIdempotent` | glm-worker/internal/codexinstall/config.go:62-103 | planning again after applying changes nothing |
| `CodexConfig.InstallThenRetire` | glm-worker/internal/codexinstall/config.go:62-103 | installing into a text without the key and retiring it restores the text byte for byte |
| `CodexConfig.PlanTouchesOneLine` | glm-worker/internal/codexinstall/config.go:62-103 | a plan inserts, replaces or removes the managed line and keeps every other byte |
| `CodexConfig.PlanManagedKey` | glm-worker/internal/codexinstall/config.go:32-60 | planning for the managed key keeps all of these promises: idempotence, the exact change flag, reading back, one line changed, and retiring what was installed restores the text |

## Left out

- The retire command of the CLI installer (`retireUnlocked`, `planRetire`): it has no journal.
- Left-over temporary files: a failed removal of a temporary file leaves it behind in the model too, and no statement bounds how many stay.
- JSON syntax, schema versions and strict decoding of journals, states and tokens: assumed to round-trip.
- Directory creation, syncing and symbolic links on the installers' paths.
- CodexCommit.ApplyInstall: needs desired files to be others than the removed, state and config surfaces (`SeparateTargets`; the statement on success asks it of config.toml also when the plan leaves that file alone), which `CodexReinstall.PreparedIsSeparate` shows of every preparation from a state the program wrote; a state edited by hand to record config.toml or itself as a managed file is outside the model.
- CodexReinstall.InstallFromDisk: starts once recovery is over, on a disk whose state records destinations below the managed roots only, as every install leaves it; the sources are a given list of destinations below those roots, in the order the program has sorted them, with any repeats.
- CodexPlan.PrepareInstall: the check that the ancestors of a managed path are real directories is left out, and so is the list of preserved files, which is only printed.
- Revision identities, digests and the storing of episode records; the model starts from an authority and a project that were loaded.
- EpisodeSchedule.ScheduleEpisodeRevision: the read-only scans of both schedulers are recursive functions, not loops.
- TokenSegments.SegmentField: counters are unbounded; the program adds 64-bit integers, so its totals agree modulo 2^64 and the statements on signs need sums that fit.
- RolloutChain.ResolveChain: the reason texts are not modelled, only that there is one; the last event time is given, not read from the tail of the file, and a file with a malformed line is unreadable as a whole.
- TokenUsage.NoResetUsageNotNegative: values after a restart are reported by the program as they are, so their sign is a condition.
- Activity counts, turns, waits and the rest of the evidence reports around token usage.
- ShellFix.RemoveFindings: for shell findings only. The Go and generic scanners can report two comments on a line, for which the edits of one line may overlap; their removal is not covered.
- Classification of files, command line and report output of the comment linter.
- Time formatting and recurrence text: timestamps are integers and the recurrence rule is left out of a write.
- WakeChain.DecodeInvertsEncode: JSON, base64 and the checksum are taken to be injective, so a token is the payload with the digest it claims; what is proved is that checksum and validation together accept exactly the encodings of valid transactions.
- WakeChain.AdvanceIsOneStep: the parsing of tool responses is a given verdict and given facts; searching automation files for the thread is a given result.
- WakeChain.BuildTransaction: needs a nonce of the generated form.
- QualityGate.HowRecordsSettle: the launch-failure path writes without the record's lock and may overwrite an interruption; it is part of the steps, and the settled-for-good statement is therefore about runs whose runner published itself. Timeouts while acquiring a lock are not modelled.
- The execution of the gates themselves, resource samples, timings and the refusal to repeat a known failure (a launcher may give up).
- SelfResume.RunSelfResume: the state validation around each wait is any verdict; error texts are not modelled.
- ControllerFence.Store.AdmitMutation: the check of the execution task against repository authority is not modelled; it can only refuse more.
- ControllerFence.Store.Commit: the change to the head's authority is given as a value; evidence publication and effect classification are a given verdict.
- Other controller operations that move the head (publication, import, parent-only execution, quality mutation settlement) use the same compare-and-swap and lease rules and are not modelled one by one.
- CodexConfig.FindTopLevelAssignment: white space is ASCII white space; undoing a double-quoted key is a parameter.
- Parsing of commands, machine output, hand-off text, telemetry, review-gap reports and status output.
