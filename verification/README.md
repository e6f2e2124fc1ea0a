# Crash-safe release transactions, in Dafny

This project models how the repository installs, activates, commits and rolls back a release, and proves what its
operators rely on. `dafny verify dfyconfig.toml` checks everything.

## What is modelled

**The release transaction engine** (`deploy/release_transaction.py`). A deployment has a journal, two symlink selectors
(`current`, `previous`), a store of complete release trees, per-transaction snapshots of host artifacts and consumer
responses, and the host paths themselves. Each of these exists twice, as the running process sees it and as it is on
disk; a crash keeps, for every entry on its own, either value (`CrashModel.Image`).

- `ReleaseTypes`, `JournalRules`: the records, and what the journal validator demands. `JournalValidator` is the validator,
  check by check, and `Texts` the lines, paths and snapshots it reads.
- `Protocol`: which journal may follow which, which selector write each phase permits, and the invariant `Good` of one
  disk image.
- `CrashModel`: worlds, steps, crashes, and the rule that a write must be justified by every image it may leave behind.
- `Recovery`: the disk that one uninterrupted reconcile leaves, and why no crash on the way changes it.
- `Runs`: theorems over whole runs, among them the refinement of a two-slot register.
- `ReconcileScript`: the exact sequence of writes of one uninterrupted reconcile, as a function of the disk it finds, and
  the proof that each of them is justified in every crash image.
- `ConsumerDuties`: what a transaction owes to the services it touches, over whole runs. A record that reports a stop, or the
  restored native boundary, directly follows that operation in every legal run (`Runs.Attested`).
- `Engine`: the class with the source's methods. Any of them may be killed at any durable boundary and every callback may
  fail. The class invariant says that the recorded steps are a legal run ending in the present world, so every theorem of
  `Runs` applies to every history of the object (`HistoryRefinesRegister`). An engine with `calm` set meets no kill and no
  failing callback, system call or check of its environment: its contracts then promise completion, and a completed
  reconcile has written exactly its script. No operation requires anything about what is durable. Over unsynced writes that
  recovery cannot bear to lose it goes on like the source, trusting what it sees (`aim.trusting`): its contract then holds of
  the visible files, and names the only worlds from which it says nothing about a power loss.
- `UnflushedRestart`, `RestartWitnesses`: what happens when a killed process left writes that were never fsynced, a
  restarted one reconciles over them, and the machine loses power; and runs from clean deployments that lead there.

**Bootstrap publication** (`deploy/bootstrap_release_infrastructure.py`), **the release gate**
(`scripts/github_release_gate.py`), **the Python inventory of the bill of materials** (`scripts/generate_sbom.py`) and
**canonical session evidence** (`scripts/release_evidence.py`) each have a module of their own.

## Where the code does not keep its documentation's promise

`docs/NGINX_DEPLOYMENT.md:536-541` promises that a journal left by `SIGKILL` or power loss always restores the exact
pre-transaction selectors. A kill *followed by a restart and then by a power loss* can break this, because the restarted
process trusts what it sees. Left alone the reconcile completes from every reachable world, in the recovered disk
(`ReconcileScript.ScriptCompletes`, `Engine.ReleaseTransactionEngine.Reconcile`). `UnflushedRestart.ResumableIsExact` says
exactly when a power loss is survived as well: every crash during and after the reconcile recovers to the right register if
and only if the world it starts from is `ReconcileScript.Resumable`. Three kinds of worlds are not:

1. `_atomic_set_selector` returns without an fsync when the selector to be removed is already gone
   (`deploy/release_transaction.py:3251-3255`). After a kill between the unlink of `current` and its fsync the resumed
   rollback records a terminal state over a selector that can come back, unless the rollback replaces `previous`
   afterwards, whose fsync also makes the removal durable. Only a transaction over two absent selectors, the first
   installation, is affected.
   An unsynced removal of `previous` is never lost: the restarted rollback replaces `current` first.
2. The cleanup behind a retired journal trusts the journal it sees (`deploy/release_transaction.py:2442-2480`): removing a
   backup or release is safe exactly when the journal on disk does not need it
   (`UnflushedRestart.CleanupUnderLostRetirement`), and the report of a completed reconcile is final exactly when the
   journal on disk means the same register. That second condition can fail only while a commit intent written since the
   last fsync of the journal waits for one (`UnflushedRestart.OnlyRecentIntentsAreLost`), and it does fail
   (`RestartWitnesses.LostRegisterHappens`).
3. Consumers are enabled under a commit intent that may still be lost (`deploy/release_transaction.py:3877-3953`):
   `EnablingNeedsDurableIntent`, `LostIntentIsRolledBack`. With nothing to enable the unsynced intent is harmless.

`RestartWitnesses` reaches each of them, both conditions of the second included, by a run of the protocol from a clean
deployment. Every other unsynced journal or selector write is tolerated, pending baseline starts included, and after a power
loss nothing is unsynced. For the journals from which `activate` and `commit` go forward `Resumable` always holds
(`ReconcileScript.ForwardIsResumable`). A planned host restoration survives the restart as well
(`UnflushedRestart.RestartedRollbackRestoresHost`).

`activate`, `arm_consumers` and `mark_daemon_mutation_started` report success without an fsync when the journal already
shows the result (`deploy/release_transaction.py:4982-4993`, `5042-5043`, `5099-5100`). Their contracts say when the
result is durable, both ways.

A managed-local archive whose rollback plan leaves out the daemon may still want the daemon enabled and started. Its
finalization then does so although no daemon marker was ever written; `Runs.DaemonCommitNeedsMarker` is stated for plans
that own the daemon.

In the bootstrap a crash can keep the manifest and lose artifacts that an earlier, killed run left unsynced, but only of a
publication without a consumer drop-in. Before the first drop-in everything visible is flushed, and each later artifact is
fsynced on its own; without one, every artifact an earlier run left behind must already be durable
(`Bootstrap.ManifestNeedsDurableArtifacts`, both ways, and `Bootstrap.LostArtifactHappens` for a case). Both production calls
pass drop-ins (`deploy/upgrade.sh:889-914`). A run without artifacts, or one whose manifest path is also a target, completes
but is refused when repeated (`Bootstrap.CompletedIsAccepted`).

## Model

| member | source | states |
|---|---|---|
| `Runs.RunKeepsInv` | deploy/release_transaction.py:3632-3773 | over every run and every crash, each possible disk is good: accepted journal, selectors of its phase, needed releases and backups present, host exact where it must be |
| `CrashModel.StepKeepsInv` | deploy/release_transaction.py:2482-2508 | one permitted write, fsync, systemd operation, host change or crash keeps every crash image good |
| `CrashModel.PriorImage` | deploy/release_transaction.py:3241-3275 | a crash image after a write is one from before it, up to the written entry: renames and unlinks are atomic |
| `Runs.RunRefinesRegister` | deploy/release_transaction.py:3978-4017 | whatever the run and wherever it crashes, the deployment is the initial two-slot register after a subsequence, in order, of the intended publications that contains every intent fsynced before the next crash |
| `Runs.RecoverySelectsRegister` | deploy/release_transaction.py:3978-4017 | reconciling any crash image of any run selects exactly that register, with the same two bounds |
| `Engine.ReleaseTransactionEngine.HistoryRefinesRegister` | deploy/release_transaction.py:3978-4017 | the same for every history of an engine object that never had to go on from a world that is not resumable |
| `Runs.MoveRefines` | deploy/release_transaction.py:5141-5172 | a journal write publishes exactly one candidate when it records commit intent and leaves the register alone otherwise |
| `Runs.OutcomeSelectsRegister` | deploy/release_transaction.py:3978-4017 | a reconciled disk selects (candidate, former current) under durable commit intent, the baseline pair otherwise |
| `Runs.NMinusOneSwaps` | deploy/release_transaction.py:4913-4970 | a committed N-1 transaction swaps the two slots |
| `Protocol.MovesAreAccepted` | deploy/release_transaction.py:2552-2803 | every journal the protocol writes over a good disk is accepted by the validator, so recovery is never wedged by the engine's own record |
| `Protocol.MoveKeepsGood` | deploy/release_transaction.py:2805-2816 | every such write fits the selectors, releases and host of the disk it is made on |
| `Runs.SelectorsStayInTransaction` | deploy/release_transaction.py:3607-3660 | wherever a run crashes both selectors are the transaction's own, as one of the four pairs made of the journal's digests, and differ outside the half-done windows: the engine's check that they belong to it never fails |
| `Runs.SlotsMeetOnlyInWindows` | deploy/release_transaction.py:3607-3630 | the selectors name the same release only in the switching, stopping and rolling-back windows, and then only as a half-done pair |
| `Runs.NeededBytesSurvive` | deploy/release_transaction.py:2410-2440 | in every crash image every referenced backup (host files, native boundary, consumer responses) is present with its digest, and selectors, rollback targets and a prepared candidate name complete releases |
| `Protocol.AcceptsReadsReferencesOnly` | deploy/release_transaction.py:2106-2142 | a journal is judged by the backups it references and by no other byte |
| `Protocol.GoodIgnoresGarbage` | deploy/release_transaction.py:2410-2440 | losing releases or backups that may be pruned or forgotten keeps a disk good |
| `Runs.CommitIsIrrevocable` | deploy/release_transaction.py:3635-3639 | once commit intent is durable, every crash image of every continuation before the next prepare still selects the candidate over the former current release |
| `Runs.NothingStartsAfterCommit` | deploy/release_transaction.py:3938-3952 | once `committed` is durable, no continuation before the next prepare enables, starts or stops a unit, and every crash image stays committed |
| `Runs.CommittedUnitsAreEnabled` | deploy/release_transaction.py:3894-3915 | over any continuation a durable commit intent stays what it is until a `committed` record, which is written only while every wanted unit is enabled |
| `Runs.ObligationSurvives` | deploy/release_transaction.py:3751-3763 | an armed rollback with active baseline consumers stays owed on every disk until an acknowledgement saw each of them active and ready, but a daemon without its marker |
| `ConsumerDuties.StoppedBeforePutBack` | deploy/release_transaction.py:3690-3732 | over any run and crash: a disk on which a rollback puts anything back comes after a stop of every unit of the plan, but a daemon without its marker |
| `ConsumerDuties.PutBackFollowsStops` | deploy/release_transaction.py:3719-3749 | no selector goes back and no host path is restored before each of these units was stopped in that rollback |
| `ConsumerDuties.StopsArePlanned` | deploy/release_transaction.py:3691-3716 | a stop takes exactly these units, by force exactly if the daemon is among them |
| `ConsumerDuties.BoundaryBeforeHost` | deploy/release_transaction.py:3733-3748 | a rollback whose plan owns the marked daemon has restored the native boundary from its own snapshot before it records restored host artifacts, queues a start or ends |
| `ConsumerDuties.RollbackIsReported` | deploy/release_transaction.py:3750-3764 | however interrupted, the record that ends an armed rollback says the host was restored exactly if it is an archive and a daemon in its plan was taken over |
| `ConsumerDuties.StoppedAreReady` | deploy/release_transaction.py:3820-3875 | when a pending rollback is acknowledged, every unit it had stopped and found active before is active and ready, whatever crashed since |
| `ConsumerDuties.StoppedAreQueued` | deploy/release_transaction.py:3775-3818 | an uninterrupted reconcile queues the start of every unit the transaction had stopped and found active before |
| `ConsumerDuties.InstallerActsBefore` | deploy/release_transaction.py:5052-5070 | others may change the host exactly while no snapshot is relied on and the transaction goes forward, is over or owns no host |
| `ConsumerDuties.RollbackServes` | deploy/release_transaction.py:3690-3764 | the writes of one reconcile of an armed rollback stop every planned unit, restore the boundary where it was taken over, and queue every unit active before |
| `ConsumerDuties.FinalizationServes` | deploy/release_transaction.py:3877-3953 | the writes of one reconcile under commit intent enable exactly the wanted units and queue exactly the wanted starts |
| `Runs.DaemonTouchedOnlyUnderMarker` | deploy/release_transaction.py:3691-3722 | over any run: when the daemon is stopped, force-stopped or started outside finalization every crash image carries the daemon marker, and keeps it through every later crash until the terminal record of the rollback |
| `Runs.DaemonCommitNeedsMarker` | deploy/release_transaction.py:5003-5013 | a managed archive whose plan owns the daemon leaves its pre-commit phases only after the daemon marker was on every disk, so finalization never touches its daemon without one |
| `Runs.SelectorMovesOnlyUnderMarker` | deploy/release_transaction.py:5003-5013 | a managed archive that plans the daemon moves a selector only under the durable marker |
| `Runs.ArchiveRollbackRestoresHost` | deploy/release_transaction.py:3738-3750 | from the opening of an archive transaction to the end of its rollback, through any crashes, every recorded path again holds what it held, absence included |
| `Runs.RestorationIsConfined` | deploy/release_transaction.py:2165-2256 | over any run of an archive transaction without changes by others, crashes included, every disk holds at every path what the run began with or the artifact recorded for that path |
| `Runs.RestoresFollowSelectors` | deploy/release_transaction.py:3723-3750 | a run restores a host path only when, on every disk, the path is recorded as restored and both selectors are back at the baseline |
| `Recovery.RestoreAllAt` | deploy/release_transaction.py:2165-2256 | restoring every record makes every recorded path exact and touches no other |
| `Recovery.RestoreOneFirst` | deploy/release_transaction.py:2165-2256 | restoring one path early, or twice after a crash, does not change the full restoration |
| `Recovery.OutcomeIsIdempotent` | deploy/release_transaction.py:3978-4017 | a second reconcile changes no selector, release, backup, host artifact or journal field |
| `Recovery.OutcomeIsQuiescent` | deploy/release_transaction.py:3978-4017 | recovery ends with no journal, a retired terminal journal, or pending baseline starts |
| `Recovery.RecoveryStepKeepsOutcome` | deploy/release_transaction.py:3632-3773 | no write of a rollback, restoration, retirement or cleanup, and no crash between them, changes where recovery ends |
| `Runs.CrashedRecoveriesConverge` | deploy/release_transaction.py:3978-4017 | once all disks a crash may leave recover to the same one, every disk after any number of crashed reconciles still does |
| `Engine.ReleaseTransactionEngine.Reconcile` | deploy/release_transaction.py:5182-5186 | never refuses a reachable disk, and however interrupted leaves visible files that recover as before; without a kill or failing callback it completes, with exactly the writes of its script, in the recovered disk with the register's selectors; if all crash images of the starting world recover to one disk, all later ones still recover to it; from a resumable world all of this includes what is durable |
| `Engine.ReleaseTransactionEngine.ReconcileLocked` | deploy/release_transaction.py:3978-4017 | from every reachable state the recovered disk, up to deferred garbage, from resumable ones with durable selectors and, wherever it wrote a record, a durable journal; uninterrupted it always gets there |
| `Engine.ReleaseTransactionEngine.Rollback` | deploy/release_transaction.py:5174-5180 | refused exactly for a foreign id and under commit intent; otherwise, from every reachable state, it completes unless interrupted, and an interruption changes nothing about where recovery ends |
| `Engine.ReleaseTransactionEngine.RollbackUnarmed` | deploy/release_transaction.py:3663-3689 | an unarmed transaction still has its baseline selectors: the source's refusal is unreachable and only an interruption keeps it from the recovered disk |
| `Engine.ReleaseTransactionEngine.RollbackArmed` | deploy/release_transaction.py:3691-3773 | on completion every unit of the plan, but a daemon without its marker, was stopped, the boundary restored where the plan owns the marked daemon, selectors and planned host back, and every unit active before queued, or the retired record written; all durable unless an unsynced removal of `current` is met while both baseline selectors are absent |
| `Engine.ReleaseTransactionEngine.QueueBaselineConsumerStarts` | deploy/release_transaction.py:3775-3818 | the units queued are exactly those active before, a daemon only under its marker, in order; nothing else changes |
| `Engine.ReleaseTransactionEngine.AcknowledgeConsumers` | deploy/release_transaction.py:3820-3875 | uninterrupted, the obligation ends exactly if every unit active before, a daemon only under its marker, is active and ready; otherwise nothing changes |
| `Engine.ReleaseTransactionEngine.FinalizeCommitLocked` | deploy/release_transaction.py:3877-3953 | every wanted unit enabled and seen enabled, every wanted start queued, then the retired commit; only an interruption prevents it; durable unless units are enabled under an unsynced intent |
| `Engine.ReleaseTransactionEngine.RetireTerminalRollbackAuthority` | deploy/release_transaction.py:2442-2480 | the compact journal precedes the removal of the first rollback byte, durably except where an already retired, unsynced journal hides one that needs the bytes |
| `Engine.ReleaseTransactionEngine.Prepare` | deploy/release_transaction.py:4776-4911 | an uninterrupted prepare succeeds exactly if some journal recording its intents is accepted, without repetitions and not N-1, and recovery leaves no pending restart, a host that can be captured, and neither the current nor (archive) the retained release as candidate; success leaves an unarmed prepared journal over the untouched register with the candidate, durable if the start was resumable and no foreign host write was unsynced |
| `Engine.ReleaseTransactionEngine.AcceptedIntentsAreValid` | deploy/release_transaction.py:4790-4837 | of the lists an accepted journal records, prepare refuses exactly those with repetitions |
| `Engine.ReleaseTransactionEngine.PreparePrevious` | deploy/release_transaction.py:4913-4970 | uninterrupted it succeeds exactly when recovery leaves both slots filled, no pending restart and a capturable host, and the profile is not managed-local; the candidate is the retained release; durable as for prepare |
| `Engine.ReleaseTransactionEngine.FirstRecordIsAccepted` | deploy/release_transaction.py:2619-2674 | the first journal of a transaction is accepted exactly when selector-only names no profile and managed-local carries its boundary |
| `Engine.ReleaseTransactionEngine.SnapshotHostArtifacts` | deploy/release_transaction.py:1480-1650 | valid records for every path, matching the host, with durable backups; refused only for an artifact that is neither file nor link, has an unsafe owner, mode or size, is hard-linked, or links to a target that is not a normal absolute path |
| `Engine.ReleaseTransactionEngine.StrictPrepareHousekeeping` | deploy/release_transaction.py:3578-3593 | only the selected releases and no backup remain |
| `Engine.ReleaseTransactionEngine.CopyCandidate` | deploy/release_transaction.py:3417-3463 | the candidate is complete and durable on return, nothing else changed |
| `Engine.ReleaseTransactionEngine.ArmConsumers` | deploy/release_transaction.py:5074-5137 | for exactly the planned units, each named once, the active ones and their baselines are recorded before any consumer is touched; when it refuses, and that nothing but an interruption stops it otherwise; when the result is durable, both ways |
| `Engine.ReleaseTransactionEngine.CaptureConsumerActiveBefore` | deploy/release_transaction.py:1014-1026 | exactly the active units of the scope, in publication order |
| `JournalRules.CanonicalIsUnique` | deploy/release_transaction.py:5112-5117 | a canonical unit list is determined by its members, so comparing two captures compares the active sets |
| `Engine.ReleaseTransactionEngine.MarkDaemonMutationStarted` | deploy/release_transaction.py:5028-5072 | only the marker changes; refused exactly when it is neither set nor the journal an armed, prepared managed archive owning the daemon; when it is durable, both ways |
| `Engine.ReleaseTransactionEngine.Activate` | deploy/release_transaction.py:4972-5026 | from every reachable state: success selects (candidate, former current); refused only when not armed, marked or prepared, an interrupted transaction only after it was recovered; uninterrupted it succeeds or refuses |
| `Engine.ReleaseTransactionEngine.Commit` | deploy/release_transaction.py:5141-5172 | success publishes exactly the journal's candidate, enables and starts what was wanted and ends in the retired commit; refused only outside `activated` and commit intent, after recovery; from every reachable state, uninterrupted, it succeeds or refuses |
| `Engine.ReleaseTransactionEngine.AtomicSetSelector` | deploy/release_transaction.py:3241-3275 | the new target is visible on return, and durable exactly unless a removal was already visible but not fsynced |
| `JournalValidator.ValidateTransaction` | deploy/release_transaction.py:2552-2803 | the checks of the source, one by one, decide exactly the journal rules, normalised links, boundary state and process identities included |
| `Texts.StateOfSnapshot` | deploy/release_transaction.py:1840-1870 | a boundary snapshot is managed exactly if its first line says so and both marks of ownership follow, absent exactly if its only line says so |
| `Texts.LinesOfUnlines` | deploy/release_transaction.py:1848-1860 | joined lines are split again, with or without a final newline |
| `Texts.NormalPathIsUpless` | deploy/release_transaction.py:1616-1628 | an absolute path is its own normal form exactly if no component leads upwards |
| `Engine.ReleaseTransactionEngine.LoadTransaction` | deploy/release_transaction.py:2510-2550 | the journal of a reachable disk always loads unchanged |
| `Engine.ReleaseTransactionEngine.WriteTransaction` | deploy/release_transaction.py:2482-2508 | refused exactly when the validator rejects; durable on success |
| `Engine.ReleaseTransactionEngine.PruneReleases` | deploy/release_transaction.py:3562-3576 | never removes a selected release, and on success leaves exactly the selected ones |
| `Engine.ReleaseTransactionEngine.VerifyHostArtifactsExact` | deploy/release_transaction.py:2258-2313 | true exactly when every recorded path holds its artifact |
| `ReconcileScript.ScriptIsLegal` | deploy/release_transaction.py:3978-4017 | from every resumable world each write of an uninterrupted reconcile, with any cleanup deferred, is justified in every crash image |
| `ReconcileScript.ScriptCompletes` | deploy/release_transaction.py:3978-4017 | the writes of one uninterrupted reconcile take every reachable world, whatever is unsynced, to the recovered disk, which is quiescent and which a second reconcile leaves alone |
| `ReconcileScript.LostPreviousHasCurrent` | deploy/release_transaction.py:3726-3736 | a removal of `previous` that was never fsynced implies a baseline `current`, which the restarted rollback replaces and fsyncs first |
| `UnflushedRestart.ResumableIsExact` | deploy/release_transaction.py:3978-4017 | every crash during and after a reconcile loads, recovers to the right register and keeps the intent behind an enabled unit if and only if it starts from a resumable world |
| `RestartWitnesses.LostRemovalHappens` | deploy/release_transaction.py:3723-3731 | a run from a clean deployment, a first installation rolled back and killed after the unlink of `current`, ends in a world where that fails |
| `RestartWitnesses.LostIntentHappens` | deploy/release_transaction.py:5141-5172 | so does a commit killed between the replacement of the journal and its fsync |
| `RestartWitnesses.LostRetirementHappens` | deploy/release_transaction.py:2471-2480 | and a retirement killed there, over a journal that needs its snapshot |
| `RestartWitnesses.LostRegisterHappens` | deploy/release_transaction.py:3877-3953 | and a first commit with nothing to enable whose intent, commit and retirement were each killed before the fsync: no byte is missing, but the disk still has the old register |
| `UnflushedRestart.OnlyRecentIntentsAreLost` | deploy/release_transaction.py:5141-5172 | as long as no commit intent was written since the journal was last fsynced or the machine last crashed, every disk a crash may leave has the visible register |
| `UnflushedRestart.RestartedRollbackRestoresHost` | deploy/release_transaction.py:3738-3750 | after a kill in mid-rollback, a restart over its unsynced writes and a power loss at any write of that restart, recovery puts every recorded path back to what it held at the opening |
| `UnflushedRestart.CleanupUnderLostRetirement` | deploy/release_transaction.py:2471-2480 | removing a backup behind an unsynced retirement is safe exactly when the durable journal does not reference it |
| `UnflushedRestart.EnablingNeedsDurableIntent` | deploy/release_transaction.py:3894-3903 | after a unit was enabled, recovery of every crash image selects the candidate if and only if the journal on disk carries commit intent |
| `UnflushedRestart.LostIntentIsRolledBack` | deploy/release_transaction.py:3894-3903 | otherwise a power loss rolls the deployment back and leaves the unit enabled |
| `Bootstrap.BarrierHolds` | deploy/bootstrap_release_infrastructure.py:450-466 | a crash image with any consumer drop-in has every prerequisite, exactly |
| `Bootstrap.Installation.Run` | deploy/bootstrap_release_infrastructure.py:417-490 | keeps the barrier under any interruption, changes no existing file, refuses exactly mixed generations and, unless killed, completes on all other trees with everything durable; a killed run has made the first of exactly these writes, and if its publication was secured at the start a manifest on disk covers every artifact |
| `Bootstrap.CompletedRunsConverge` | deploy/bootstrap_release_infrastructure.py:450-490 | completed runs over one base yield the same file map, however often they were interrupted |
| `Bootstrap.CompletedIsAccepted` | deploy/bootstrap_release_infrastructure.py:421-449 | a completed run is accepted again exactly when it had artifacts and the manifest path is not a target |
| `Bootstrap.CompletedVerifies` | deploy/bootstrap_release_infrastructure.py:264-305 | a completed publication verifies against exactly the contracts listing its artifacts once each |
| `Bootstrap.ManifestNeedsDurableArtifacts` | deploy/bootstrap_release_infrastructure.py:450-490 | wherever a run is killed and the power fails, a manifest comes with every artifact, if and only if a drop-in is published or the artifacts of earlier runs were durable at the start |
| `Bootstrap.Installation.ManifestSurvivesHonestly` | deploy/bootstrap_release_infrastructure.py:450-466 | with a drop-in, however the installation was interrupted, crashed and resumed before, a manifest that survives a crash comes with every artifact |
| `Bootstrap.LostArtifactHappens` | deploy/bootstrap_release_infrastructure.py:450-490 | two killed runs and a power loss that keep the manifest without its artifact, after which every run refuses |
| `Bootstrap.CanonicalRecords` | deploy/bootstrap_release_infrastructure.py:335-367 | fails exactly on duplicate targets or unreadable sources; otherwise publication order and sorted records |
| `Bootstrap.ValidateManifestDocument` | deploy/bootstrap_release_infrastructure.py:207-261 | accepts exactly non-empty, valid, duplicate-free, ascending record lists |
| `Bootstrap.Installation.VerifyInstalledManifest` | deploy/bootstrap_release_infrastructure.py:264-305 | decides the installed-manifest contract |
| `Bootstrap.DescribedIsInstalled` | deploy/bootstrap_release_infrastructure.py:434-448 | checking digests and sizes of a manifest is checking the bytes of its sources |
| `ReleaseGate.ResolveReleaseByExactTag` | scripts/github_release_gate.py:384-444 | on a fixed listing, a release is found exactly when it is the only one with the tag, ids are valid and distinct, and the listing is shorter than pages times page size |
| `ReleaseGate.ParseAssets` | scripts/github_release_gate.py:473-489 | accepts exactly at most twelve valid, permitted assets with distinct names and ids |
| `ReleaseGate.Gate.Anchor` | scripts/github_release_gate.py:550-574 | success means two answers about a valid exact release, in the same state and with the same assets; alone with the remote it changes nothing and does not fail on a valid release |
| `ReleaseGate.Gate.Upload` | scripts/github_release_gate.py:1190-1265 | no complete asset is deleted, a mismatch at classification means no write; alone with the remote a repairable draft only gains exact assets and, unless a request is cut off, ends with exactly the local files |
| `ReleaseGate.Gate.Repair` | scripts/github_release_gate.py:1221-1262 | each action that completes on a repairable draft removes exactly its own name from what is pending |
| `ReleaseGate.CleanupKeepsRepairable` | scripts/github_release_gate.py:1225-1243 | removing a starter keeps the draft repairable, every complete asset, and the set of pending names |
| `ReleaseGate.AdditionKeepsRepairable` | scripts/github_release_gate.py:1248-1262 | an upload, complete or cut short, keeps the draft repairable; a complete one is no longer pending |
| `ReleaseGate.Gate.NothingPendingIsExact` | scripts/github_release_gate.py:880-892 | no name is pending exactly when the release carries exactly the local files |
| `ReleaseGate.ExactDeterminesFiles` | scripts/github_release_gate.py:880-892 | assets are exact for one inventory only: every name complete, with the size and digest of the local bytes |
| `ReleaseGate.RepairableDeterminesFiles` | scripts/github_release_gate.py:1212-1219 | so is every complete asset of a draft that upload goes on with |
| `ReleaseGate.RequireExactAssets` | scripts/github_release_gate.py:880-892 | decides exactness name by name |
| `ReleaseGate.Gate.PatchPublish` | scripts/github_release_gate.py:1282-1303 | at most one publish request, made on an observed draft with exactly the local files; alone with the remote it succeeds on such a draft |
| `ReleaseGate.Gate.Publish` | scripts/github_release_gate.py:1306-1329 | a published release is only read; a draft is published only after the content of an exact draft was checked, and success means an observed published release with exactly the local files whose attestation was checked; alone with a healthy exact release it succeeds unless cut off, without immutable releases it never writes |
| `Sbom.ResolveDependencies` | scripts/generate_sbom.py:531-591 | ends for every input and order; raises exactly when no solution is free of requirements the lock cannot satisfy; otherwise the least solution |
| `Sbom.LeastIsJustified` | scripts/generate_sbom.py:471-482 | the result has exactly the edges and extras that a locked requirement asks for whose marker is absent or holds with no extra or with an active one |
| `Sbom.BareMarkerIsNone` | scripts/generate_sbom.py:471-482 | a marker that holds without any extra changes neither what raises nor what is found |
| `Sbom.DeadMarkerIsNothing` | scripts/generate_sbom.py:471-482 | a parsed line whose marker holds in no context changes neither |
| `Sbom.NodesAreEdges` | scripts/generate_sbom.py:577-591 | a node lists a reference exactly if there is an edge to its package, the application's exactly if the package is required directly |
| `Sbom.LeastIsUnique` | scripts/generate_sbom.py:545-591 | the result does not depend on the order of the packages |
| `Sbom.GrowthShrinksMissing` | scripts/generate_sbom.py:545-547 | every changing pass shrinks what can still be added: the loop terminates |
| `Sbom.FailureIsFinal` | scripts/generate_sbom.py:440-468 | a line that raises below every solution raises in all of them |
| `Sbom.GeneratedGraphIsValid` | scripts/generate_sbom.py:594-639 | a generated graph passes validation exactly when the application's reference is non-empty and its own |
| `Sbom.PythonGraphIsValid` | scripts/generate_sbom.py:497-591 | the graph of the Python inventory, with the references the source builds, always passes validation |
| `Sbom.PackageRefIsInjective` | scripts/generate_sbom.py:507-512 | two packages share a reference only if name and version agree |
| `Sbom.ApplicationRefIsInjective` | scripts/generate_sbom.py:74-78 | two application references agree only in kind, name and version |
| `Sbom.PlainBytes` | scripts/generate_sbom.py:507-512 | letters, digits and four marks are written as they are, every other byte as three characters |
| `Sbom.UnquoteQuote` | scripts/generate_sbom.py:507-512 | percent-quoting without safe characters can be undone and leaves no separator |
| `Sbom.ValidateDependencyGraph` | scripts/generate_sbom.py:594-639 | decides graph validity |
| `SessionEvidence.ValidateCanonicalSession` | scripts/release_evidence.py:591-820 | the loops accept exactly the sessions of the declarative specification |
| `SessionEvidence.StartsMatchGroups` | scripts/release_evidence.py:785-797 | start mutations and groups are in one-to-one correspondence |
| `SessionEvidence.MutationsAreBounded` | scripts/release_evidence.py:785-802 | more mutations than groups, at most two per group |
| `SessionEvidence.SessionIsHull` | scripts/release_evidence.py:656-806 | the session interval is the tight hull of the group intervals |
| `SessionEvidence.PortsHaveOneGroupAndOneStop` | scripts/release_evidence.py:706-712 | a port belongs to one group, and the stop with the group's cleanup nonce covers it |
| `SessionEvidence.StatesAreReached` | scripts/release_evidence.py:500-530 | the start of a group aims at running ports, its stop at exactly the states the cleanup found, and there the group is |
| `SessionEvidence.ValidateMutation` | scripts/release_evidence.py:483-547 | decides the validity of one mutation record |

## Left out

- Timestamps, byte counts and the 64 KiB cap of the journal: records are modelled, not their JSON bytes; the clock is taken never to fall below `created_at`.
- SHA-256 is taken as injective, UUIDs as parameters.
- Ownership, mode, symlink and mount checks of the engine's own directories and of replaced host paths, SELinux, the lock file: they are environment checks that may fail, and the lock is mutual exclusion. What a capture checks of host artifacts is modelled.
- Staging directories and partially removed release trees: a release is present as a complete tree or absent, named by its digest; `.venv`, `.env` and `attach_dotenv` are not part of this model.
- The runtime state of the native boundary: its restore and verify callbacks succeed or fail; the two backups they read, and that a restore happened, are modelled.
- Changes by others during a call of the engine: the environment acts between calls; within a call the double capture in `arm_consumers` therefore cannot differ.
- Capacity preflights, legacy snapshots, the command line, `systemd`, HTTP, `ss` and `/proc` probes: they appear as failures that may happen at any time.
- `Engine.ReleaseTransactionEngine.HistoryRefinesRegister`: after an operation began in a world that is not resumable, or a prepare over host writes of others that were not fsynced, the contracts hold of the visible files and say nothing about a power loss; what a power loss then does is stated for a single reconcile (`UnflushedRestart`).
- `Engine.ReleaseTransactionEngine.ForgetBackups`: the snapshots of several transactions are removed in one step, not one directory after the other with an fsync between; a failure leaves any part of them.
- `JournalValidator.ValidateTransaction`: a text stands for its UTF-8 bytes, so that decoding cannot fail; the spelling of recorded host paths is fixed by the allowlist.
- `Engine.ReleaseTransactionEngine.StartConsumer`: a start is queued; when the unit becomes active is the environment's choice.
- `Bootstrap.Installation.Run`: the encoded size of the manifest is a parameter; short writes inside one file are not modelled, a file appears complete or not at all.
- `Bootstrap.CanonicalRecords`: paths are numbered in the order of their text.
- `ReleaseGate.Gate.DownloadAndValidateAll`: downloads, local contracts and attestations are one check that may fail and is recorded; `command_prepare`, `command_verify` and the upload URL are not part of this model.
- `ReleaseGate.Gate.Upload`: convergence and completion are stated for a remote only this tool changes; against other writers only the safety clauses hold.
- `Sbom.ResolveDependencies`: requirement lines are taken as parsed; markers and specifiers are arbitrary predicates. Licences, hashes and the web inventory are not part of this model.
- `Sbom.DependencyGraph`: the sorting of `dependsOn` lists is not modelled.
- `SessionEvidence.ValidateCanonicalSession`: JSON shapes, UUID and timestamp syntax, the runtime authority and profile fields of a group are not part of this model.
