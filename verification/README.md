# Anole: proofs about state restore, engine activation and batch work

Anole converts files with third-party engines. This project models the parts of it whose
correctness depends on order, interruption or repetition, and proves what they promise for
every input, every schedule of failures and every sequence of calls.

## What is modelled

**Restoring the application state** (`Storage`, `RestoreState`, `Restore`, `RestoreRuns`,
`Snapshots`).
A restore replaces five components: presets, settings, engine registry, reports and the job
database. `Storage.Disk` is a disk with one method per rename, removal or publication; a
schedule of fates decides before each step whether it works, fails or is the last thing that
happens before a crash, and directory removals and database copies can also stop half way.
On top of it stand the file replacement with a backup, the write-ahead journal, the
installation, the rollback and the recovery at the next start, each as the source has them.
The service that copies the database is represented by its steps: it refuses a source or a live
database that does not pass its check, takes a snapshot of the live one, prunes the backup
directory, in which the safety database stands too, and only then copies and cleans up.
The central notion is `RestoreState.Destiny`: the value a component will have once recovery
has dealt with the journal that is on disk. Every routine is proved to keep it, except the one
save that makes the `committed` flag durable. There are two exceptions: one for an installation,
given exactly in terms of the disk and the schedule before the call (`LosesDatabase`), and one
for a recovery that stops after its snapshot has left no room for the safety database
(`WillDrop`). `RestoreRuns.Run` draws the conclusion for a whole life of starts, restores and
user changes, each under its own schedule of faults: the state that counts changes only to a
complete bundle, by the user's own writes, or by one of these two, and whenever a start or a
restore reports success that state is live.

**Engines** (`Versions`, `EngineStore`, `Doctor`, `EngineRegistry`, `EnginePack`,
`InstalledStore`). The version
order, the list of installed versions, the map of executable names, the active pointers with
fallback and rollback, and the installation of packs by any number of installers whose steps
interleave in any way, with crashes and I/O errors anywhere.

**State bundles** (`Bundle`, `BundleArchive`). Which manifests are accepted, which archives are
unpacked, and what a backup publishes.

**Batches of images** (`Jobs`, `BatchRun`, `BatchInputs`, `Batch`, `ManyImages`). Finding the
inputs, naming the outputs, the job states, the loop over the jobs and the totals it reports.

**Algorithms** (`Chain`, `Archive`, `Queue`, `Naming`, `Sanitizer`, `Tokens`). The search for a
two-step conversion, the text that identifies an archive, the desktop's view of the queue, the
search for a free name, the removal of scripts and remote references from e-mail, and the
normal form of text.

Where the source changes things step by step, so does the model: classes with fields for the
disk, the registry of paths, the queue projection, the job store and the reserved names, and
methods with loops that are proved against functions or predicates. What those functions mean
is then proved in lemmas.

## What turned out not to hold

Each of these is proved, with the exact condition where there is one.

- Recovery does not always finish. The safety database is unlinked before the journal
  (application_state.rs:918 and :407). After a crash in between, every later recovery fails at
  :900; `RestoreState.Stuck` describes exactly these disks, and `CrashBetweenSafetyAndJournal`
  reaches one from a restore that was cut before it committed. All five components are live with
  the values recovery was meant to restore then (`StuckShowsDestiny`, kept by every routine,
  unless the safety database was dropped as described next).
- Recovery cannot be cut any number of times. Each one that copies the database takes a snapshot
  of the live one first, and the backup directory keeps the newest file and four others
  (maintenance.rs:1068-1082); the safety database has a name that is pruned there.
  `Snapshots.SafetySurvivesFour` says that it survives exactly the next four snapshots, and a
  recovery drops it before everything is put back only where `WillDrop` holds. The first of the
  four is taken by the restore itself, so the fourth recovery that is cut between its snapshot and
  its copy is one too many (`FourCutRecoveriesDropSafety`): the bundle's database stays live,
  the other components are still to be put back, and no recovery can finish. An installation and
  its own rollback leave room for at least two more (`RestoreAndReboot`).
- A live database that does not pass the check blocks the operations that are to replace it. The
  service takes a verified snapshot of it first (maintenance.rs:167-169, :362-412), so without
  faults recovery succeeds if and only if the disk is neither stuck nor `Halted`: the database
  has to be put back, and the live one, or the safety copy, is refused. A new restore fails
  likewise if the live database is refused (`Openable`).
- A restore can lose the database. If the save that records the start of the database switch
  fails before anything is published, the in-process rollback still copies the safety database
  over the live one (:817, :894). If that copy is cut short, the durable journal knows of no
  switch, recovery leaves the torn database live and removes the safety copy.
  `Restore.LosesDatabase` says exactly which disks and schedules do this: there is a database that
  passes the check, all steps up to that save work, the save errs before it publishes, the snapshot
  succeeds, and the copy goes wrong half way. `InstallPreparedBundle` proves both directions and
  `UnrecordedSwitchLosesDatabase` runs one such schedule. Crashes alone never do it, nor faults
  that leave nothing half done (`LossIsRisky`); in every other case the restore is all or nothing.
- The error path of the installation leaves a journal backup behind (:824, unlike :831-833).
  Which errors leave a journal is said for every schedule (`StoppedAt` in
  `InstallPreparedBundle`): none that comes before the journal is open, every one from the
  commit on, and one that stops the switch in between exactly if `KeepsJournal` holds where it
  stops: there is a backup, the rollback cannot begin, or not all of its steps and the removal of
  the journal work. In terms of the disk and the schedule before the call, `LeavesJournal` gives
  the schedules that leave a backup: one of the five saves of the journal fails at its last step,
  or fails to put the file back; among schedules with a single error before the save that
  commits, a journal is left exactly by these and by a copy of the bundle's database that stops
  half way and leaves something the service refuses (`TearsDatabase`).
  The backup has nothing to undo at first (`EarlierJournalHasNothingToUndo`), but the next recovery
  takes back whatever is created in the meantime in a component that it records as absent, and
  nothing else (`LeftoverJournalRemoves`). `LeftoverJournalRemovesNewFiles` runs such a case: new
  presets and a new database are removed by a start without any fault.
- `atomic_replace_file` never needs the removal at :1555-1557, since it has just resolved the
  backup; the model proves the branch dead and leaves it out.
- A reader of the pointers does not always see the old or the new one. `active_entries` reads
  `.json` files only, and `SetActive` hides a visible pointer exactly under the schedules of
  `EngineRegistry.Hides`: it is moved aside, and then publishing is cut, or fails and so does
  moving it back. It stays hidden until the directory's backups have been recovered or another
  pointer is set.
  `CrashHidesPointer` is an example.
- A rollback without permission can lower the version. `SlipsThroughWhen` gives the exact
  condition: the target activates, its manifest has a lower version than the one behind the
  pointer, and a crash has hidden the pointer, or the active pack does not verify, or the
  target's directory does not name a lower version. `HiddenPointerDowngrades` and
  `MisnamedTargetDowngrades` are examples; in the first one every name is honest. If names are
  honest, the pack behind the pointer verifies, and the directory's backups are recovered before
  each rollback, no sequence of rollbacks lowers the version, however many of them are
  interrupted (`RollbackRepeatedly`); the code does not recover them there.
- The comment above `installed_versions` says that packs of one version collapse to one. The
  code lists every one of them (`BothManifestsListed`).
- The comment above `active_entries` says that malformed entries are skipped as long as one
  entry parses. The code returns an error exactly if a visible pointer file is damaged
  (`ActiveEntries`), and then no engine is recovered or rolled back, whatever the other pointers
  are (`Recover`, `Rollback`, `OneDamagedPointerStopsAll`).
- Installing a pack that verifies can fail without any I/O error, and then leaves the pack
  published. `GivesUpExactlyWhen` says when: its turn to activate comes and one of its executables
  cannot be run or has a name that a pack of another engine has taken in the process.
  `SecondProviderIsRefused` shows that two engines that provide one name always get there.
- A pack can be published under the name of another. `MisnamedExactlyWhen` says when: the manifest
  that an installer copied last belongs to another place than the source it had verified.
  `EditedSourceIsMisnamed` shows that every edit between the two does it that keeps all the
  files to be copied and declares no others. What is published verifies nevertheless.
- A chain is rebuilt unchanged from its targets if and only if the input format given is the
  normalised one (`RebuiltUnchanged`).
- The limit of 100 000 reports in a bundle is never reached: each entry takes the 64 digits of its
  digest in a manifest of at most 4 MiB (`TooManyToBackUp`).
- There can be more than one pending frame, although the projection keeps a flag to prevent it.
  A reset clears the flag but not the frame; `MoreThanOnePendingWhen` says that two frames are
  ever pending if and only if a batch that counts arrives while the flag is clear and a frame
  left by a reset has not run. One reset is enough (`TwoFramesAfterReset`).
- A backup that reports an error can have published its bundle, if what it published cannot be
  measured (`Backup`).
- The numbers of a batch report do not always add up. All jobs of a batch are created, up to
  100 000 (job_store.rs:678), but only the first page of them is listed, run and reported on, which
  holds 10 000 (main.rs:1738, job_store.rs:1677): planned + skipped = discovered if and only if there
  are at most 10 000 requests (`Accounts` in `RunImageBatch`). The others stay queued, and the
  report mentions none of them (`RestIsQueued`). `OneImageTooMany` runs a directory of 10 001
  images without any fault: the report says that nothing is skipped, nothing is queued and
  10 000 are planned, while one job is still queued.
- Sanitising e-mail loses entity references: the tokenizer reports them as events of their own,
  which the loop ignores (eml.rs:296). The text and character data outside scripts survive
  otherwise, so all character data survives if and only if it holds no reference
  (`DataIsKeptWhen`); `Tom &amp; Jerry` loses its ampersand (`AmpersandIsLost`).

## Model

| member | source | states |
|---|---|---|
| Storage.Disk.RecoverFile | crates/core/src/application_state.rs:1573-1581 | however it ends, the logical value (the file, or else its backup) is unchanged; on success it is in the file and the backup is gone |
| Storage.Disk.PrepareReplacement | crates/core/src/application_state.rs:1537-1552 | nothing visible changes before the current file is moved, and nothing is pending afterwards |
| Storage.Disk.MoveAndPublish | crates/core/src/application_state.rs:1553-1570 | moving aside, publishing and dropping the backup keep the old or the new value at every cut; a failure keeps the old one exactly under the stated fates |
| Storage.Disk.ReplaceFile | crates/core/src/application_state.rs:1536-1571 | cut at any step, the logical value is the old one or the new one; success publishes the new one; with no backup pending it completes exactly if all its steps work, and it is said exactly when it fails with nothing published and when it fails and leaves the backup |
| RestoreState.RewindKeepsUndo | crates/core/src/application_state.rs:893-924 | what undoing a journal will produce does not depend on how far undoing has got, even if the durable journal lags behind the one in memory |
| RestoreState.RewindKeepsDestiny | crates/core/src/application_state.rs:893-924 | a rollback cut anywhere leaves the outcome of the next recovery unchanged: rollback is re-runnable |
| RestoreState.WriteAheadCoverage | crates/core/src/application_state.rs:774-814 | whenever a live component differs from what recovery will restore, the durable journal covers it and the old value sits in the one place where undoing the journal looks for it |
| RestoreState.StuckJournalCanBeDropped | crates/core/src/application_state.rs:912-919 | on a stuck disk the database already holds what recovery was to restore, and if the other components do, dropping the journal keeps the destined state and ends the deadlock |
| Restore.RewindKeepsShowing | crates/core/src/application_state.rs:912-919 | a rollback cut short leaves a disk that recovery cannot finish only with all components showing the state to be restored |
| Restore.TrackedShowing | crates/core/src/application_state.rs:816-824 | the same for a rollback driven by the journal in memory |
| RestoreState.RewindWhileTracked | crates/core/src/application_state.rs:816-824 | a rollback driven by the journal in memory keeps what recovery will find, except for a torn database while the durable journal has no record of the switch |
| RestoreState.EarlierJournalHasNothingToUndo | crates/core/src/application_state.rs:824 | after a complete rollback an earlier journal left on disk has nothing to undo, until a component changes |
| RestoreState.RecordingKeepsUndo | crates/core/src/application_state.rs:854-859 | recording a swap that has not happened changes no component's pre-restore value, whether or not the save got through |
| RestoreState.MovingKeepsUndo | crates/core/src/application_state.rs:860-865 | moving recorded copies keeps every pre-restore value reachable |
| RestoreState.SwitchingKeepsUndo | crates/core/src/application_state.rs:810-811 | recording the database switch changes no pre-restore value |
| RestoreState.CopyingKeepsUndo | crates/core/src/application_state.rs:812-813 | once the switch is on record, whatever the copy does to the live database, the old value stays reachable |
| RestoreState.TrackedDestiny | crates/core/src/application_state.rs:785-815 | at any point of the switch recovery would produce the pre-restore state |
| Restore.UndoneStep | crates/core/src/application_state.rs:902-911 | undoing one more swap, completely or in part, keeps the invariant of the rollback loop |
| Restore.UndoneAll | crates/core/src/application_state.rs:902-911 | after the loop every swapped component holds its pre-restore value and no set-aside copy is left |
| Restore.SwapExtends | crates/core/src/application_state.rs:785-809 | one more completed swap extends the installed part by one component and leaves the later ones untouched |
| Restore.Service.RollbackSwap | crates/core/src/application_state.rs:902-911 | one swap is undone, or is still on a point from which undoing can go on |
| Restore.Service.RollbackSwaps | crates/core/src/application_state.rs:902-911 | the swaps are undone last one first; on success all four components hold their pre-restore values; it completes exactly if all its steps work |
| Restore.Service.RollbackFromJournal | crates/core/src/application_state.rs:893-924 | cut anywhere, it can be started again with the same outcome, unless its snapshot made the backup directory drop the safety database before everything was put back, which happens only if there was no room left; if it unlinked the safety database itself, everything recorded is already undone; it cannot begin exactly if the safety database is needed and gone, or the database service refuses, and else completes exactly if all its steps work |
| Restore.Service.PrepareRestore | crates/core/src/maintenance.rs:162-177 | what the database service does before it copies: it refuses without effect a source or a live database that does not pass the check; otherwise a snapshot is taken if there is a live database, which leaves one place less, or drops the safety database if there was none |
| Restore.Service.RestoreDatabase | crates/core/src/maintenance.rs:164-212 | the live database afterwards is the old one, the source or torn, as the fates of its steps have it, and it is the source even if the restore fails only when it removes what it staged; only the source can disappear besides, and only by the pruning |
| Restore.RollbackAccount | crates/core/src/application_state.rs:893-924 | the steps of a rollback: it completes exactly if all of `RollbackSteps` work |
| Restore.DroppedKeepsOthers | crates/core/src/application_state.rs:893-901 | a rollback that dropped the safety database changes the destined value of no component but the database, and recovery is stuck from then on |
| Snapshots.PruneAutomaticSnapshots | crates/core/src/maintenance.rs:1044-1083 | the loop keeps exactly the file to be preserved and the newest `retain - 1` others |
| Snapshots.KeptAre | crates/core/src/maintenance.rs:1068-1082 | a file is kept if and only if it is the one to be preserved or fewer than `retain - 1` other files come before it |
| Snapshots.FiveStay | crates/core/src/maintenance.rs:264-269 | after a snapshot the directory holds it and the newest four others, at most five files |
| Snapshots.NewestStay | crates/core/src/maintenance.rs:1068-1082 | if the newest file is the one to be preserved, the newest `retain` files stay |
| Snapshots.RoomGetsLess | crates/core/src/maintenance.rs:242-271 | each snapshot moves a file down one place, and drops it exactly if at least four files were newer already |
| Snapshots.SafetySurvivesFour | crates/core/src/maintenance.rs:242-271 | a safety database that is the newest file when taken is still there exactly as long as at most four snapshots have followed |
| Restore.Service.CleanupCommittedRestore | crates/core/src/application_state.rs:869-884 | removes leftovers and nothing else, at any point of interruption |
| Restore.Service.ReadJournal | crates/core/src/application_state.rs:390-401 | the journal is found where it is or in its backup, and nothing else changes |
| Restore.Service.ResolveJournal | crates/core/src/application_state.rs:402-406 | rolling back or cleaning up keeps the destined state, unless the safety database is dropped; it makes it live on success, and fails without faults exactly if the disk is stuck or the database service refuses |
| Restore.Service.RecoverInterruptedRestore | crates/core/src/application_state.rs:390-409 | the destined state never changes, unless the recovery stops after its snapshot left no room for the safety database, and then only the database changes; on success it is live and the journal and all leftovers are gone; without faults it succeeds if and only if the disk is not stuck and the database service does not refuse; a disk it leaves stuck shows the destined state, unless the safety database was dropped; it uses up at most one place of the room |
| Restore.HaltedWhen | crates/core/src/application_state.rs:893-901 | recovery cannot begin because of the database service exactly if the safety database is to be copied and it, or a live database, does not pass the check; its snapshot drops the safety database exactly if there is a live database and no room |
| Restore.Service.RecordSwap | crates/core/src/application_state.rs:854-859 | the swap is durable before anything moves, and no pre-restore value changes |
| Restore.Service.MoveComponent | crates/core/src/application_state.rs:860-865 | the two renames keep every pre-restore value reachable at every cut |
| Restore.Service.SwapComponent | crates/core/src/application_state.rs:844-867 | write-ahead: at every point of interruption the journal in memory covers what was moved and the pre-restore values are unchanged; on success the staged copy, or nothing, is live; it completes exactly if its steps work |
| Restore.Service.SwapAll | crates/core/src/application_state.rs:785-809 | the four components in order: all installed exactly if all steps work, otherwise undoable |
| Restore.Service.SwitchDatabase | crates/core/src/application_state.rs:810-813 | the switch is recorded before the copy; when it stops with an error, it is said in terms of the fates whether the switch is on record, whether a backup is left, and what the live database is |
| Restore.Service.SwitchComponents | crates/core/src/application_state.rs:785-815 | all five components hold the bundle's values on success; otherwise everything can be undone; exactly when the switch is started but not on record, when a journal backup is left, and what the live database is, is said in terms of the disk and the schedule |
| Restore.Service.RollbackAfterError | crates/core/src/application_state.rs:816-826 | after a failed switch the destined state is the pre-restore one; the database is the exception exactly if the switch is not on record, there was a database that can be put back, the snapshot works and the copy goes wrong half way; a journal is left exactly if `KeepsJournal` says so |
| Restore.KeepsJournalWhen | crates/core/src/application_state.rs:816-826 | the condition in terms of the disk and the schedule where the switch stopped is the same as: a backup was there, the rollback failed, or the removal of the journal did |
| Restore.Service.OpenJournal | crates/core/src/application_state.rs:742-783 | the safety copies and the first journal change no destined value; on success the live database has passed the check and the safety database equals it, with room for four snapshots |
| Restore.Service.CommitRestore | crates/core/src/application_state.rs:828-833 | the destined state is the new one exactly if the committed journal became durable, else the old one |
| Restore.Service.InstallPreparedBundle | crates/core/src/application_state.rs:737-842 | for every schedule of faults the destined state is the pre-restore one or the complete bundle, the latter exactly when committed; until then every component that differs is covered by the durable journal; the database is lost exactly on the disks and schedules of `LosesDatabase`; whether an error leaves a journal is decided for every schedule by where it stops; without faults it succeeds exactly if the live database passes the check; at least two places are left for snapshots if a rollback is pending |
| Restore.InstallationIsCovered | crates/core/src/application_state.rs:774-842 | write-ahead: wherever an installation ends before it commits, every component that differs from what it was is accounted for by the durable journal |
| Restore.JournalLeftLater | crates/core/src/application_state.rs:765-826 | what is said of the journal that is left, in terms of the disk and schedule at the start of the switch, holds in terms of those of the whole installation, shifted by the steps that open the journal |
| Restore.LossIsRisky | crates/core/src/application_state.rs:810-826 | losing the database takes an error and, two or three steps later, a fault that leaves a step half done |
| Restore.Service.RestoreAndReboot | crates/core/src/application_state.rs:737-842 | an installation and then recoveries, each cut anywhere: the first success shows all old or all new components; a last recovery without faults succeeds unless the disk is stuck or the service refuses; a stuck disk shows the state recovery was to restore, unless the safety database was dropped, which takes at least three recoveries; the lost database is characterised exactly |
| Restore.CutInstallation | crates/core/src/application_state.rs:737-815 | a restore cut after it has copied the database and before it commits leaves the bundle's state live, all of it to be undone, the safety database, and room for three snapshots |
| Restore.CrashBetweenSafetyAndJournal | crates/core/src/application_state.rs:912-919 | a restore cut before it commits and then a recovery cut before it unlinks the journal end on a disk that no recovery can finish, with the whole old state live |
| Restore.FourCutRecoveriesDropSafety | crates/core/src/maintenance.rs:164-169 | a restore cut before it commits, then four recoveries cut between their snapshot and their copy: after the first three the safety database is still there, the fourth drops it and ends on a disk that no recovery can finish, with the bundle's database live and the old presets not put back |
| Restore.UnrecordedSwitchLosesDatabase | crates/core/src/application_state.rs:810-819 | a restore under one schedule that errs when it records the switch and dies half way through the copy of the rollback, then a recovery: the live database is torn and its safety copy gone |
| RestoreRuns.WriteLastsWhenSettled | crates/core/src/application_state.rs:893-911 | a change to a live component survives the next recovery if and only if no pending journal is going to undo that component |
| RestoreRuns.LeftoverJournalRemoves | crates/core/src/application_state.rs:893-924 | a journal left by a failed installation takes a later change back exactly if it records that the component did not exist |
| RestoreRuns.LeftoverJournalRemovesNewFiles | crates/core/src/application_state.rs:816-824 | an installation fails and leaves its journal, presets and a database are created, and a start without faults removes both |
| RestoreRuns.InstalledIsAttempted | crates/core/src/application_state.rs:378-383 | seen from before the leftover recovery and the unpacking, an installation replaces the destined state by the bundle, keeps it, or loses the database |
| RestoreRuns.RestoreBundle | crates/core/src/application_state.rs:378-383 | a restore over any leftovers of an earlier one keeps or replaces the destined state as a whole, or ends in the leftover recovery that drops the safety database; it loses the database exactly if the leftovers are dealt with and the rest of the schedule is one that loses it; without faults it succeeds if and only if the disk was not stuck, and neither recovery nor the safety copy meets a database that the service refuses |
| RestoreRuns.Perform | crates/core/src/application_state.rs:378-409 | one act: what becomes of the destined state, when a user change lasts, when the database is lost, when a safety database can be dropped, what is shown, that nothing is pending after a success, and exactly when a start or a restore without faults succeeds |
| RestoreRuns.Run | crates/core/src/application_state.rs:378-409 | over any sequence of starts, restores and user changes, each with its own faults, every act is as `Performed` says: the destined state changes only by committed bundles, by user changes exactly when nothing pending would undo them, by a lost database under the stated schedules, or by a dropped safety database where there was no room left; every success shows it and leaves nothing pending |
| Versions.ParseSplits | crates/core/src/engine_registry.rs:422-432 | a version is split at its dots and nowhere else |
| Versions.SegmentIsNumber | crates/core/src/engine_registry.rs:426-428 | a segment is the number n if and only if it is a non-empty run of digits of value n below 2 to the 64th, which a plus sign may precede; any other segment is text, as it stands |
| Versions.ParsesPrinted | crates/core/src/engine_registry.rs:426-428 | every number below 2 to the 64th is read back from its decimal form |
| Versions.Compare | crates/core/src/engine_registry.rs:434-463 | the comparing loop decides less, greater and equal as the recursive order does, and equal means identical |
| Versions.VersionsTotal | crates/core/src/engine_registry.rs:434-463 | exactly one of less, equal, greater holds for any two versions |
| Versions.VersionsTransitive | crates/core/src/engine_registry.rs:434-463 | the order is transitive |
| Versions.VersionOrderIsLexicographic | crates/core/src/engine_registry.rs:434-463 | the order is lexicographic, decided by the first differing segment or else by length, text below numbers |
| Versions.NumbersDecide | crates/core/src/engine_registry.rs:434-444 | versions that differ in a last number are in the order of the numbers: 1.10 is above 1.9 |
| Versions.NumberAboveText | crates/core/src/engine_registry.rs:453-459 | a number stands above a text in its place, and a further segment makes a version higher |
| Versions.TextsDecide | crates/core/src/engine_registry.rs:445-452 | texts are in the order of their first differing characters |
| Strings.BelowIsLexicographic | crates/core/src/engine_registry.rs:445-452 | a text is below another if it is its beginning or has the smaller character where they first differ |
| EngineStore.PartialIsNoHash | crates/core/src/engine_registry.rs:212-219 | a leftover staging directory is never listed as a version |
| EngineStore.InstalledVersions | crates/core/src/engine_registry.rs:176-235 | the directory walk computes the reversed ordered map of everything found; it lists installed directories only, and one for every installed version and hash |
| EngineStore.FoundAre | crates/core/src/engine_registry.rs:197-231 | what counts as installed: exactly the directories whose name is 64 hexadecimal digits and that hold a manifest, in a directory named after the version |
| EngineStore.AllListed | crates/core/src/engine_registry.rs:181-234 | whatever is listed is such a directory, and every version and hash of one is listed |
| EngineStore.NewestFirst | crates/core/src/engine_registry.rs:181-234 | the list is strictly descending by version and then by hash, and holds, for each version and hash found, the entry found last |
| EngineStore.BothManifestsListed | crates/core/src/engine_registry.rs:169-171 | two directories of one version with different hashes are both listed, contrary to the comment |
| Doctor.RegisteringIsExact | crates/core/src/doctor.rs:400-436 | after registering, a pack owns exactly the names it provides, each with one of its own paths and its hash, and no other pack gains or loses one |
| Doctor.RegistrableWhen | crates/core/src/doctor.rs:390-422 | a pack can be registered if and only if all its executables can be executed and none of their lower-cased names is another pack's |
| Doctor.PathRegistry.Register | crates/core/src/doctor.rs:381-438 | succeeds exactly if all names can be claimed, and changes nothing otherwise |
| EngineRegistry.VerifiedActivates | crates/core/src/engine_pack.rs:270-282 | without name clashes between engines, a pack activates if and only if it verifies |
| EngineRegistry.RegisteringKeepsClaims | crates/core/src/doctor.rs:423-436 | every registered name stays one that a verified pack of its owner provides |
| EngineRegistry.Registry.SetActive | crates/core/src/engine_registry.rs:92-156 | whatever happens, the stored pointer is the old or the new one; an error means the old one; success shows the new one; a pointer that was visible is hidden afterwards exactly under the schedules of `Hides`, and one that was not is still hidden exactly under those stated |
| EngineRegistry.Registry.RecoverBackups | crates/core/src/application_state.rs:1061-1101 | no stored pointer changes, and on success every stored pointer is visible |
| EngineRegistry.Registry.SwitchAndReboot | crates/core/src/engine_registry.rs:92-156 | a switch cut anywhere and then directory recoveries cut anywhere: the first success shows the old or the new pointer |
| EngineRegistry.Registry.RecoverEngine | crates/core/src/engine_registry.rs:272-316 | reports the active version if it activates, else the newest installed one that does, else a failure, each exactly when that is the case; a fallback becomes the active pointer |
| EngineRegistry.InstalledPackIsFallback | crates/core/src/engine_registry.rs:284-316 | if a directory of the store holds a pack that activates, is not the broken one, and is the only one of its version and hash, then there is a fallback, which is that pack or a newer one |
| EngineRegistry.Registry.ActiveEntries | crates/core/src/engine_registry.rs:369-407 | an error exactly if a visible pointer file is damaged, else exactly the pointer files, in the order of their manifest paths, part by part |
| Strings.PartsAreLexicographic | crates/core/src/engine_registry.rs:369-407 | paths are in the order of the parts where they first differ, and a beginning comes first |
| Strings.KeptPartsAre | crates/core/src/engine_registry.rs:369-407 | all parts of a path count but empty ones and single dots |
| Strings.SegmentsAre | crates/core/src/engine_registry.rs:369-407 | the parts are those between the slashes |
| EngineRegistry.OneDamagedPointerStopsAll | crates/core/src/engine_registry.rs:158-167 | contrary to the comment, one damaged pointer keeps all engines from being recovered |
| EngineRegistry.AllEnumerated | crates/core/src/engine_registry.rs:369-407 | there are no more entries than pointer files |
| EngineRegistry.Registry.Recover | crates/core/src/engine_registry.rs:247-270 | the first 64 pointers are reported on as they should be, each given the names registered by then; the engines that fell back point at their fallback; a damaged pointer file is an error that changes nothing |
| EngineRegistry.SecondStart | crates/core/src/engine_registry.rs:237-240 | with an honest store and no clashes, the next start activates what this one fell back to |
| EngineRegistry.Registry.RecoverTwice | crates/core/src/engine_registry.rs:237-270 | two starts in a row with at most 64 pointer files: every fallback of the first is reported as active by the second |
| EngineRegistry.Registry.FindActive | crates/core/src/engine_registry.rs:339-343 | the first matching entry is the engine's own pointer |
| EngineRegistry.SlipsThroughWhen | crates/core/src/engine_registry.rs:339-362 | a rollback without permission to a lower manifest version passes the policy exactly if the pointer is hidden, the active pack does not verify, or the target directory names no lower version |
| EngineRegistry.LoweredWhen | crates/core/src/engine_registry.rs:327-366 | a rollback without permission lowers the version behind the pointer only if the target slips through, and then does unless interrupted |
| EngineRegistry.Registry.Rollback | crates/core/src/engine_registry.rs:327-366 | blocked exactly when it would be a downgrade without permission, given who owns the pointers, and refused exactly when a pointer file is damaged; otherwise it moves exactly one pointer, to the re-verified target, or when interrupted leaves the old or the new one; it lowers the version behind the pointer exactly if the target slips through |
| EngineRegistry.NotLower | crates/core/src/engine_registry.rs:344-365 | one permitted rollback to an honestly named target, finished or interrupted, keeps the version behind the pointer at or above any earlier one if the pointer was visible |
| EngineRegistry.Registry.RollbackRepeatedly | crates/core/src/engine_registry.rs:327-366 | no sequence of rollbacks without permission, each interrupted anywhere or not and each after the backups were recovered, lowers the version behind the pointer |
| EngineRegistry.CrashHidesPointer | crates/core/src/engine_registry.rs:124-137 | a crash between the renames hides the pointer from readers, though it is still stored |
| EngineRegistry.HiddenPointerDowngrades | crates/core/src/engine_registry.rs:124-137 | after a switch cut between its renames a rollback without permission to an honestly named target lowers the version |
| EngineRegistry.MisnamedTargetDowngrades | crates/core/src/engine_registry.rs:345-351 | with a misnamed target a rollback without permission lowers the version |
| EnginePack.PublishedAlwaysVerifies | crates/core/src/engine_pack.rs:295-358 | over every interleaving, crash and edit, a published directory is complete and verifies, and is never replaced |
| EnginePack.PublishedUnderItsOwnName | crates/core/src/engine_pack.rs:307-319 | with unchanged sources every published directory carries its own engine id, version and manifest hash |
| EnginePack.CopyingSucceeds | crates/core/src/engine_pack.rs:360-404 | no step of copying a verified, unchanged source fails, and the finished copy verifies |
| EnginePack.NoNeedlessFailure | crates/core/src/engine_pack.rs:299-357 | with unchanged sources an installer's step fails by itself if and only if its source does not verify or its executables cannot be registered, and what it activates is published and verifies |
| EnginePack.GivesUpExactlyWhen | crates/core/src/engine_pack.rs:270-357 | over every interleaving with unchanged sources, an installer without I/O errors gives up if and only if its source does not verify or, when its turn to activate comes, its executables cannot be registered in its process |
| EnginePack.NameIsTaken | crates/core/src/doctor.rs:411-422 | once a pack is registered, a pack of another engine that provides one of its names cannot be activated in that process |
| EnginePack.SecondProviderIsRefused | crates/core/src/engine_pack.rs:295-357 | of two verified packs of different engines with an executable name in common the second one is published and its installation fails |
| EnginePack.AlwaysTraced | crates/core/src/engine_pack.rs:299-340 | what an installer publishes has the name of the source it verified and the manifest it copied last, over every interleaving and edit |
| EnginePack.MisnamedExactlyWhen | crates/core/src/engine_pack.rs:319-342 | a published directory carries a wrong name exactly if the manifest copied last is of another place than the source verified |
| EnginePack.EditedCopyVerifies | crates/core/src/engine_pack.rs:339-340 | the copy of an edited source that covers the verified one verifies |
| EnginePack.VerifiesByDeclaredFiles | crates/core/src/engine_pack.rs:100-175 | verification reads the manifest and the declared files only |
| EnginePack.VerifiesExactlyWhen | crates/core/src/engine_pack.rs:144-175 | a directory verifies if and only if its manifest can be read, every declared file is there, the digest of every file declared with one equals it but for case, and the further checks accept the declared files |
| Strings.SameLower | crates/core/src/engine_pack.rs:150 | two texts have one lower-case form if and only if they differ in the case of letters only |
| EnginePack.SameManifestSameDigests | crates/core/src/engine_pack.rs:144-170 | two directories that verify by one manifest agree in the digest of every file declared with one |
| EnginePack.PublishedIsIntact | crates/core/src/engine_pack.rs:294-410 | after any history every published file that is declared with a digest has it |
| EnginePack.PackStandsInItsPlace | crates/core/src/engine_pack.rs:307-342 | a pack stands under its engine, version and manifest digest, and so do its executables |
| EnginePack.StepsOfAnInstaller | crates/core/src/engine_pack.rs:294-410 | the steps of an installer in a sound store: a published pack is used without copying, else the files are copied one by one and the copy is checked |
| EnginePack.WhatEndsAnInstaller | crates/core/src/engine_pack.rs:294-410 | an installer that is over stays so and changes nothing; a crash ends every installer, an I/O error every one at work, and neither changes what is published |
| EnginePack.EditedSourceIsMisnamed | crates/core/src/engine_pack.rs:319-342 | for any two packs, an edit between verification and copying that keeps all files to be copied and needs no others publishes the second pack under the name of the first |
| EnginePack.StageVerifiedPack | crates/core/src/engine_pack.rs:360-404 | the copy holds the declared files with their bytes and nothing else, verifies, and has the same place |
| EnginePack.PackStore.Install | crates/core/src/engine_pack.rs:270-357 | publishes every source that verifies, reusing an identical pack or adding one copy, and succeeds if and only if what then stands there can be activated; the executable names change exactly then; a source in which a file is missing or has another digest than declared is refused, and nothing is published |
| InstalledStore.PathOfInjective | crates/core/src/engine_pack.rs:307-320 | different engines, versions and hashes have different manifest paths |
| InstalledStore.InstalledHasPlace | crates/core/src/engine_registry.rs:195-231 | an installed version stands under its own engine and version |
| InstalledStore.RegistryActivatesAlike | crates/core/src/engine_pack.rs:270-282 | at the path of an installed pack the registry finds that pack, and can activate it exactly if an installation could |
| InstalledStore.InstallationsAreHonest | crates/core/src/engine_pack.rs:307-342 | after any history of installations from unchanged sources, what the registry finds under an engine and a version is a pack of that engine and version |
| Bundle.ParentIsASegment | crates/core/src/application_state.rs:1428-1442 | a path is refused as leading upwards exactly if one of its parts between slashes does |
| Bundle.SafePathIs | crates/core/src/application_state.rs:1428-1442 | a path is safe if and only if it has no backslash, no part that leads upwards, a first part that is a name, and a last part that is not empty |
| PortableNames.SafeStemIs | crates/core/src/application_state.rs:1389-1424 | a stem is safe if and only if it has 1 to 128 letters, digits, dots, underscores and hyphens and does not stand for a device |
| Bundle.PrefixedJsonPathIs | crates/core/src/application_state.rs:1373-1406 | accepts exactly a portable file name with `.json` directly in the folder |
| Bundle.CountIsCardinality | crates/core/src/application_state.rs:1309-1313 | a counter is the number of places where the component occurs |
| Bundle.CountIsFlag | crates/core/src/application_state.rs:1329-1347 | a component with a single allowed path is counted once or never |
| Bundle.CountsMeanAcceptable | crates/core/src/application_state.rs:1358-1369 | the final test on the counters accepts exactly the manifests whose flags match their entries |
| Bundle.EntryStep | crates/core/src/application_state.rs:1314-1357 | one round of the loop keeps what is known of the entries exactly if the entry passes |
| Bundle.CheckEntry | crates/core/src/application_state.rs:1315-1356 | an entry passes exactly if its path is safe, new and in the component's place, its size within the limit and its digest 64 hexadecimal digits |
| Bundle.ValidateManifest | crates/core/src/application_state.rs:1287-1371 | accepts exactly the manifests that meet the declarative rule |
| Bundle.GoodEntryIs | crates/core/src/application_state.rs:1315-1356 | what an entry has to be, in full: the path of its component, a size within that component's limit, and 64 hexadecimal digits |
| Bundle.AcceptableIs | crates/core/src/application_state.rs:1287-1371 | what an acceptable manifest is, in full: version 1, an application version of 1 to 64 characters, good entries with distinct paths, one database, presets and settings exactly as claimed, at most 4096 registry entries and 100 000 reports, and none of these unless claimed |
| BundleArchive.CheckNames | crates/core/src/application_state.rs:609-623 | passes exactly the archives whose names are safe and distinct |
| BundleArchive.UnpackedExactly | crates/core/src/application_state.rs:649-698 | the staged files are exactly the listed paths, each with the bytes of the member of that name |
| BundleArchive.UnpackEntries | crates/core/src/application_state.rs:648-698 | succeeds exactly if every entry is regular, can be read and has the declared size and digest, and the total stays within 16 GiB |
| BundleArchive.PrepareBundle | crates/core/src/application_state.rs:588-735 | a bundle is unpacked if and only if it is sound and can be read, and what is staged is what its manifest lists |
| BundleArchive.Backup | crates/core/src/application_state.rs:458-586 | publishes at most the bundle it wrote, if and only if the collected files can be backed up, that bundle is sound, every read and write of it succeeds and nothing stands in the way; it reports so unless measuring the published file fails |
| BundleArchive.AcceptableWhenCollectible | crates/core/src/application_state.rs:486-550 | which states have an acceptable manifest, in terms of the collected files: a version of 1 to 64 characters, a database, every file in its component's place, within its size and with a hexadecimal digest, no path twice, at most 4096 registry entries and 100 000 reports, and reports only if they were asked for; presets and settings may be there or not |
| BundleArchive.ClaimsAgree | crates/core/src/application_state.rs:528-549 | the manifest claims presets and settings exactly if they were collected |
| BundleArchive.WrittenMembers | crates/core/src/application_state.rs:1473-1520 | the bundle holds the manifest and then every collected file under its path |
| BundleArchive.BackupRoundTrip | crates/core/src/application_state.rs:558-570 | unpacking a published bundle gives back one file for each collected one, with the bytes that were written, whose length and digest are those of the bytes that were hashed |
| BundleArchive.SoundExactlyWhen | crates/core/src/application_state.rs:509-570 | a backup of acceptable files fails only for size (16 GiB packed or unpacked, 4 MiB of manifest), a refused component, or a file that changed between hashing and copying |
| BundleArchive.FitsWhenUnchanged | crates/core/src/application_state.rs:510-526 | every member fits its entry if and only if no file changed its length or digest in between |
| BundleArchive.TooManyToBackUp | crates/core/src/application_state.rs:1480-1482 | more than 65536 files never make a sound bundle |
| Jobs.EndsWellOnlyOnceAndLast | crates/core/src/domain.rs:315-335 | a job that completes was planned, run and validated without a break, after being created as planned or queued and inspected, and its history ends there |
| Jobs.EnteredFrom | crates/core/src/domain.rs:315-335 | for each state, from which states it can be entered |
| Jobs.JobStore.Transition | crates/core/src/domain.rs:315-335 | refuses exactly the illegal changes and changes one job only |
| Jobs.JobStore.CreateQueuedBatch | crates/core/src/job_store.rs:672-742 | creates all jobs of a batch, new and queued, or none; without a database fault it does if and only if there are between 1 and 100 000 |
| Jobs.JobStore.ListBatchJobsPage | crates/core/src/job_store.rs:1671-1700 | the jobs of a batch from an offset on, in their order, at most 10 000 |
| Jobs.PageIs | crates/core/src/job_store.rs:1677 | a page begins at the offset and holds the jobs asked for, at least one and at most 10 000, as far as there are any |
| BatchRun.RunJob | crates/cli/src/main.rs:1761-1823 | no request is refused, the outcome counted is the one stored, and without faults the job ends where its turn leads |
| BatchRun.CountsGrow | crates/cli/src/main.rs:1801-1821 | one more job raises exactly the counter of its stored state |
| BatchRun.QueuedTail | crates/cli/src/main.rs:1825-1829 | jobs not reached add to the queued count and to nothing else |
| BatchRun.SumIsSize | crates/cli/src/main.rs:1825-1828 | the four counters together count every job that had its turn |
| BatchRun.TurnsEnd | crates/cli/src/main.rs:1761-1823 | which turns leave a job completed, with a warning, cancelled or blocked |
| BatchRun.CountsAreJobs | crates/cli/src/main.rs:1801-1829 | the counters are the numbers of the jobs stored as completed, with a warning, as failed or blocked, and as cancelled |
| BatchRun.ReachedIs | crates/cli/src/main.rs:1757-1760 | the loop stops at the first place where the jobs end, the pause limit is met, the batch is cancelled, or the last turn ended cancelled |
| BatchRun.ProgressReports | crates/cli/src/main.rs:1825-1843 | completed + warning + failed + cancelled + queued = planned, and each number is the number of jobs stored in such a state |
| BatchRun.RunQueuedJobs | crates/cli/src/main.rs:1750-1843 | every requested change is legal; a report is produced unless the database or a report file fails, and agrees with the store; without database faults the jobs that had their turn are exactly those that the pause limit and cancellations let through, and each is where its turn leads |
| BatchInputs.ReadDirectory | crates/cli/src/main.rs:1869-1918 | one directory's inputs, deferred directories and counts add up to what it holds |
| BatchInputs.EnumerateImageInputs | crates/cli/src/main.rs:1862-1922 | the stack search finds every image outside the output root once, and discovered = inputs + skipped = the links and regular files there |
| BatchInputs.EachOnce | crates/cli/src/main.rs:1903-1917 | every link and regular file outside the output root is an input, once, or is skipped |
| BatchInputs.ImageNameWhen | crates/cli/src/main.rs:1924-1933 | the name of an image has a stem, a dot, and one of seven extensions in whatever case |
| BatchInputs.ImagesAre | crates/cli/src/main.rs:1903-1917 | a path is an input if and only if it leads to a regular file with an image's name whose directory is not under the output root |
| BatchInputs.ImagesAreBelow | crates/cli/src/main.rs:1663-1671 | every input lies below the input root |
| Batch.ReservedNames.UniqueOutput | crates/cli/src/main.rs:1935-1977 | the first of the two names whose key is free, and its key is taken afterwards; an error exactly if both are taken |
| Batch.ChoiceIs | crates/cli/src/main.rs:1935-1977 | for `STEM.E` the names are `STEM.TARGET` and then `STEM.from-E.TARGET`, in the folder that mirrors that of the input; there is none exactly if both keys are taken |
| Batch.PlainChoiceIs | crates/cli/src/main.rs:1935-1977 | the same for a name without an extension, whose second name has `source` in its place |
| Batch.ChoiceMirrors | crates/cli/src/main.rs:1948-1977 | either name stands under the output root where the input stands under the input root, with the stem of the input's name |
| Batch.PlanBatch | crates/cli/src/main.rs:1659-1722 | the batch ends without a plan if and only if for some input the name is not Unicode, both names are taken by then, its output exists, or the directory of the output of a convertible input cannot be made; else planned + skipped = inputs, the planned inputs are the convertible ones, output keys are pairwise distinct and no output exists |
| Batch.PlanImages | crates/cli/src/main.rs:1644-1722 | requests + skipped = discovered; the requests are for exactly the convertible images below the root, with distinct output keys |
| Batch.ConvertibleAreExactly | crates/cli/src/main.rs:1686-1704 | skipping keeps exactly the inputs that probe as images and can be planned |
| Batch.RunImageBatch | crates/cli/src/main.rs:1570-1859 | without database or report faults there is a report if and only if the planning does not end the batch and there are at most 100 000 requests; requests + skipped = discovered, planned is the number of requests up to 10 000, so that planned + skipped = discovered if and only if there are no more; the jobs beyond that stay queued and unreported, those listed are run as their turns, the pause limit and cancellations have it, other jobs are untouched, and the report agrees with the store |
| Batch.RunListed | crates/cli/src/main.rs:1738-1843 | running the first jobs of a batch leaves the others queued and all jobs outside the batch untouched |
| ManyImages.PlanningGoesThrough | crates/cli/src/main.rs:1659-1722 | inputs whose first names have different keys are all planned, with those names, if nothing is in the way |
| ManyImages.AlbumBatch | crates/cli/src/main.rs:1738 | a directory of more than 10 000 and at most 100 000 convertible images: all jobs are created, the report plans 10 000, says that none is skipped or queued, and the rest is still queued |
| ManyImages.OneImageTooMany | crates/cli/src/main.rs:1738 | the same for 10 001 images: one job is queued that the report does not know of |
| Chain.Expand | crates/core/src/chain.rs:231-249 | following all routes from one node finds the target or queues exactly the extensions worth following |
| Chain.FindConversionChain | crates/core/src/chain.rs:217-252 | terminates and finds a chain if and only if there is one; then it has two hops and goes through the first possible middle format |
| Chain.ExtensionsAreMiddles | crates/core/src/chain.rs:233-248 | the queue after the first node lists the whitelisted middle formats in neighbour order |
| Chain.CountedMeansChainable | scripts/count_routes.py:87-89 | a target is in the reach set of a row exactly if the search finds a chain to it |
| Chain.ChainedTargets | scripts/count_routes.py:84-89 | the set-based reach of a source equals the set of targets the search reaches |
| Chain.ChainedSetIsReach | scripts/count_routes.py:87-89 | the reach set of a source is the set of listed targets the search finds a chain to |
| Chain.Count | scripts/count_routes.py:80-90 | the two totals are the numbers of source and target pairs with a route of their own and with a chain the search finds |
| Chain.TotalsArePairs | scripts/count_routes.py:80-90 | the sums over the rows are the numbers of pairs of a source and a format it has a route or a chain to |
| Chain.FromHopTargets | crates/core/src/chain.rs:184-209 | the chain through the given targets, and none if there are none |
| Chain.HopsThroughTargets | crates/core/src/chain.rs:184-209 | step i leads from the target before it, the first one from the input format, to target i, with the engines for that |
| Chain.RebuiltUnchanged | crates/core/src/chain.rs:180-209 | a found chain is rebuilt unchanged if and only if the input format is its start |
| Archive.SortSorts | crates/core/src/archive.rs:263 | sorting yields an ascending rearrangement |
| Archive.SortedUnique | crates/core/src/archive.rs:263 | an ascending rearrangement is unique, so the sorting algorithm is immaterial |
| Archive.LineUnique | crates/core/src/archive.rs:259-262 | a line and what follows it can be told apart in one way only |
| Archive.JoinUnique | crates/core/src/archive.rs:264 | the joined text determines its lines |
| Archive.CanonicalManifest | crates/core/src/archive.rs:258-266 | two archives with safe names get the same text if and only if they hold the same entries up to order |
| Archive.TextStartsWithSmallest | crates/core/src/archive.rs:258-266 | the text begins with the smallest `name:size` line, wherever its entry stands, and goes on with the text of the others after a line break |
| Archive.UnsafeNames | crates/core/src/archive.rs:112-119 | the unsafe names are those that begin with a slash or backslash, or hold two dots in a row or a colon |
| Archive.ColonBreaksTheManifest | crates/core/src/archive.rs:118 | without the ban on colons two different archives share a text |
| Decimal.DigitsInjective | crates/core/src/archive.rs:261 | decimal printing is injective |
| Decimal.DigitsAreDecimal | crates/core/src/archive.rs:261 | one of ten digits for each place, the last place last |
| Decimal.ValueIsDecimal | crates/core/src/engine_registry.rs:426 | a digit is worth its place among the ten, and every place further left counts tenfold |
| Queue.LastWriteWins | apps/desktop/src/queueProjection.ts:58-60 | the projection holds exactly the last update of every job, in order of first appearance |
| Queue.AcceptedWhenHighest | apps/desktop/src/queueProjection.ts:54-57 | a batch counts if and only if it is of version 1 and numbered above every earlier version 1 batch |
| Queue.StaleBatchIsIgnored | apps/desktop/src/queueProjection.ts:54-56 | repeated or late batches have no effect |
| Queue.VisibleJobIsLastWritten | apps/desktop/src/queueProjection.ts:84-91 | the page has a line for each job, up to a hundred, and line i is the last write of the job that appeared as number i |
| Queue.CountedByLastWrite | apps/desktop/src/queueProjection.ts:75-83 | a job is counted in a class if and only if its last write is in it |
| Queue.ViewCounts | apps/desktop/src/queueProjection.ts:72-90 | completed, active and failed are the numbers of jobs in those states, where running and validating jobs are active |
| Queue.ViewCountsAddUp | apps/desktop/src/queueProjection.ts:72-90 | finished, active and failed jobs together are at most all jobs |
| Queue.QueueProjection.Apply | apps/desktop/src/queueProjection.ts:49-69 | takes in a batch exactly if it counts, and asks for a frame exactly if none is pending |
| Queue.QueueProjection.TakeSnapshot | apps/desktop/src/queueProjection.ts:71-92 | the counting loop yields the sizes of the classes and the first hundred jobs |
| Queue.Session | apps/desktop/src/queueProjection.ts:43-69 | over any session every scheduled frame that runs shows everything accepted by then, what is accepted is shown unless a frame is pending, and the number of pending frames is exactly `Pending` |
| Queue.MoreThanOnePendingWhen | apps/desktop/src/queueProjection.ts:43-69 | more than one frame is ever pending if and only if a batch that counts arrives while the flag is clear and a frame left by a reset has not run |
| Queue.TwoFramesAfterReset | apps/desktop/src/queueProjection.ts:43-69 | a batch, a reset and a batch leave two pending frames |
| Queue.ShownOrPending | apps/desktop/src/queueProjection.ts:61-68 | one more event keeps it so that what is accepted has been shown or a frame is pending |
| Naming.CandidatesDistinct | apps/desktop/src/desktopModel.ts:297-310 | no two candidates are the same name |
| Naming.TakenBound | apps/desktop/src/desktopModel.ts:306-313 | candidates that are all reserved are no more than the reserved names |
| Naming.TakenApart | apps/desktop/src/desktopModel.ts:281-289 | a path is taken apart at its last separator and at the last dot after it |
| Naming.NothingToTakeOff | apps/desktop/src/desktopModel.ts:281-289 | without such a dot, of which one that opens the file name is none, the extension is that of `bin` |
| Naming.SuggestedNames | apps/desktop/src/desktopModel.ts:291-314 | the suggested names in full |
| Naming.DirectoryOutputWhen | apps/desktop/src/desktopModel.ts:97-109 | which conversions write a directory |
| Naming.SuggestedConvertedName | apps/desktop/src/desktopModel.ts:291-314 | terminates with the first candidate that is not reserved, after at most as many tries as there are reserved names |
| Sanitizer.PushSanitizedAttributes | crates/core/src/eml.rs:308-327 | the loop computes the cleaned attributes |
| Sanitizer.TrySanitizeHtml | crates/core/src/eml.rs:219-306 | the depth-counter loop equals the recursive removal of whole script elements, and fails exactly on a tokenizer error |
| Sanitizer.CleanIsExpected | crates/core/src/eml.rs:226-297 | the result, event by event: nothing of what is met inside a script, a comment for each script that is opened outside, all other events but for their attributes |
| Sanitizer.AttributesKept | crates/core/src/eml.rs:308-327 | all attributes stay but handlers and remote references, and the latter leave a mark |
| Sanitizer.ScriptInAnyCase | crates/core/src/eml.rs:229-230 | a tag is a script tag by its name, in whatever case |
| Sanitizer.HandlerWhen | crates/core/src/eml.rs:319-321 | an attribute is a handler if its name begins with `on`, in whatever case |
| Sanitizer.RemoteReferenceWhen | crates/core/src/eml.rs:201-207 | an attribute is a remote reference if it is one of three and its value, after blanks, begins with one of two schemes or with two slashes |
| Sanitizer.CleanIsSafe | crates/core/src/eml.rs:219-327 | no script, no event handler and no remote source or link is left |
| Sanitizer.CleanTwice | crates/core/src/eml.rs:219-306 | sanitising twice equals sanitising once |
| Sanitizer.TextSurvives | crates/core/src/eml.rs:271-276 | exactly the texts outside scripts survive, in order |
| Sanitizer.DataSurvives | crates/core/src/eml.rs:271-296 | of the texts, character data sections and entity references outside scripts, exactly the first two survive, in order |
| Sanitizer.DataIsKeptWhen | crates/core/src/eml.rs:271-296 | all character data outside scripts survives if and only if it holds no entity reference |
| Sanitizer.AmpersandIsLost | crates/core/src/eml.rs:296 | a reference between two texts is gone |
| Tokens.WordsSnoc | crates/core/src/document.rs:1018-1027 | one more character starts a word, lengthens the last one or changes nothing |
| Tokens.NormalizedTokens | crates/core/src/document.rs:1015-1030 | the loop yields the lower-cased maximal alphanumeric runs joined by single spaces |
| Tokens.SameNormalForm | crates/core/src/document.rs:1015-1030 | two texts normalise equally if and only if their word lists are equal |

## Left out

- SQLite and `MaintenanceService` (backup, restore, preflight) are represented by contracts: which contents pass the integrity check is a parameter; a restore is the check, the snapshot and the pruning under one fate, then a copy that completes, fails without effect, or leaves its target torn, and then the removal of what was staged, whose failure is reported although the copy is complete. That the copy of a content that passes the check passes it again afterwards is assumed. SQLite's own guarantees are not used.
- Restore.Service.PrepareRestore: of the backup directory only the number of places before the safety database is dropped is kept; `Snapshots` relates it to the files. Their modification times grow, and nothing else, such as compacting the database, takes snapshots while a restore is pending.
- Snapshots.PruneAutomaticSnapshots: takes the files in the order in which the source sorts them; errors while pruning are part of the fate of the snapshot.
- JSON, zip, SHA-256 and BLAKE3 are parameters; a round trip of the manifest's text is assumed where a lemma says so, and no property of the digests is.
- Uniquely named temporary files and staging directories: nothing the model covers reads one that was left behind.
- The database's side files belong to the database's one name; a removal can leave the group torn.
- Restore.Service.InstallPreparedBundle: the safety bundle is one step that can fail or crash, because `BundleArchive.Backup` covers what it writes.
- Whether a rename that has returned is durable before a crash; the source syncs file contents only.
- Two processes restoring at the same time.
- Restore.Service.RestoreAndReboot: no replacement backup of the presets or settings file is pending at the start. With a live database the safety bundle resolves such backups first (application_state.rs:481-494); without one, a pending backup survives the restore, and if the bundle brings no such file the next read of the settings (:172) brings the old ones back.
- Restore.Service.RecoverInterruptedRestore: a journal file that is not a journal is outside `WellFormed`; the code returns an error without changing anything.
- EnginePack.PublishedAlwaysVerifies: the installers are values stepped by a function instead of objects, so that their interleavings can be quantified over; `StageVerifiedPack` and `PackStore.Install` keep the imperative form for one installer. Verifying and registering a pack is one step, since what is published does not change.
- EngineRegistry.Registry.RollbackRepeatedly: for a pack behind the pointer that verifies at the start; what verifies does not change meanwhile.
- Signature trust, review status and the certification of packs, which do not influence what activates.
- EngineRegistry.Registry.ActiveEntries: paths are compared part by part, which is the order of canonical absolute paths without a drive prefix; errors while listing the directory are not modelled.
- EngineStore.InstalledVersions: the ordered map is a list that insertion keeps in order; errors while listing a directory are not modelled.
- BundleArchive.PrepareBundle: copying in 64 KiB pieces is not modelled.
- BundleArchive.Backup: which files are collected, and the checks of their contents, are parameters, as are the checks of the staged components.
- BatchInputs.EnumerateImageInputs: the final sort of the inputs is not modelled; the results hold for every order.
- BatchRun.RunQueuedJobs: the runner reports the end of the engine before it returns a result, as the one for images does.
- Batch.RunImageBatch: the checks of the options and the roots and the search for the engines come before it; opening the job store, an output that another batch has reserved in it, and a directory name with control characters, which the store refuses in the name of the batch, count as database faults.
- Chain.FindConversionChain: extensions and targets are taken as already normalised; the conversion tables are parameters.
- Sanitizer.TrySanitizeHtml: works on markup events; the printed text is not modelled, and since attribute values are printed without quotes nothing is claimed of it.
- Tokens.NormalizedTokens: the Unicode tables are parameters; all that is needed is that lower-casing an alphanumeric character yields something, without a space.
- Job storage, conversion planning, validation reports, subprocesses, the user interfaces and packaging.
