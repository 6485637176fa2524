# CodeMesh, verified models of its stateful core

CodeMesh keeps a registry of Git projects, lays them out in a workspace, clones them on demand, and runs agents'
commands on prepared copies. This project models the algorithms underneath in Dafny and proves what they promise:

* **Agent runs** (`AgentRuns.dfy`, `AgentManager.dfy`, `AgentStorage.dfy`). Any number of prepare, execute and clean
  processes share run rows, run directories, contract files and per-run try-locks. They are a transition system in which
  every process may stop at any step, which lets go of its locks. An inductive invariant gives the safety of a run from
  the check under its lock to the unlock, also against the lock-free path of `Clean`. `Execute` and `Clean` are then
  written out as the source has them, with any steps of other processes in between their own.
* **Manifest import** (`Manifest.dfy`, `PlanImport.dfy`, `ConflictFree.dfy`, `ImportStages.dfy`, `ApplyImport.dfy`,
  `RollbackLimits.dfy`, `Importing.dfy`, `Replan.dfy`, `Validation.dfy`, `Exporting.dfy`). A plan without conflicts fits
  the registry, whatever permutation of aliases it asks for; applying it cannot trip a uniqueness check, and gives exactly
  the overlay of its updates and adds. If any one store call fails, the rollback reports no error precisely if the
  aliases it draws are clear of all others, and restores every row precisely if no row it could not rename comes after
  the row that had its alias. Planning the same manifest again changes nothing, but for one exactly described kind of
  row. A validated manifest plans to adds on an empty machine, and survives export, import and export.
* **Dry run** (`Reconciliation.dfy`, `DryRunRefines.dfy`). The second implementation of the planner's decision passes a
  manifest exactly if the planner has no conflict and no project is to take the place of an existing workspace root.
* **Hydration** (`Disks.dfy`, `Placeholders.dfy`, `Cloning.dfy`, `Planner.dfy`, `Execution.dfy`, `Materializing.dfy`,
  `Bootstrap.dfy`, `FailureReports.dfy`, `RegistryPlaceholders.dfy`, `DiskHosts.dfy`, `BootstrapRun.dfy`,
  `LostPlaceholders.dfy`). The file system is a map from segment lists to nodes. All four routes of a clone have the same effect, succeed under the same condition, and lose nothing a user puts
  into the destination meanwhile; none leaves the workspace. Clones of one plan leave each other alone; applying the registry converges;
  placeholders stay owned and are found again. A bootstrap from a manifest puts every project in its place, in the
  registry and on the disk, and changes nothing else; each way in which it can stop is described exactly.
* **Searching** (`Globs.dfy`, `Names.dfy`, `Scan.dfy`, `Hosts.dfy`, `Paths.dfy`). The recursive `**` match against its
  declarative meaning, the unbounded alias searches, the scan of a workspace, and the two loops that resolve the nearest
  existing ancestor of a path.

Paths are lists of segments. `Paths.dfy` gives the segment-level meaning of `filepath.Clean`, `Join` and `Rel`, and shows
the containment tests of the source to be exactly "proper prefix", "prefix" and "comparable" on cleaned paths.

The class `Projects.ProjectStore` has the uniqueness checks of the SQLite store, and a countdown to one call that fails
and leaves the rows alone. `Hosts.Host` is what a planner sees of a file system, by three functions: what is at a path,
what is there once links are followed, and where a path resolves to. `Hosts.Lawful` says that they fit together.

What the proofs found in the code:

* A run id of "/" passes `validateRunID`, although its directory is then the agents directory itself, and ".locks" passes
  as well (`AgentStorage.ManagedRunDirIsItsOwn`, `AgentStorage.LockFilesSurvive`).
* The call-by-call rollback of an import keeps only the original aliases out of its own draws. With a project that holds
  an alias of the rollback's form it can fail, and leave a project under a rollback alias (`RollbackLimits.RollbackCanFail`),
  or report an error although every row is as it was (`RollbackLimits.UnclearCanBeExact`). Stores with transactions, like
  the SQLite one, do not use it.
* A run that hydrates projects reports no clone when one fails, although those before it are on the disk. The empty
  report is right exactly if nothing was started or the plan's first clone is the one that fails
  (`FailureReports.FailureReport`, `FailureReports.TwoClones`).
* A bootstrap from a manifest that changes the alias of a project passes its dry run and its hydration plan, which still
  have the old alias, and records the new one. If the project's place has its untouched placeholder, the new plan then
  refuses it for the old alias in its metadata. After a finished import nothing else can block the new plan
  (`BootstrapRun.HinderedIsLost`, `BootstrapRun.Apply`, `LostPlaceholders.RenamePlaceholder`).
* A second import still changes the local path of a row that was local-only, at its desired place, missing, and spelled
  differently (`Replan.ReplanIsUnchanged`, `Replan.SecondImportCanChange`).
* The dry run blocks a project that is to take the place of an existing empty workspace root, which the planner would add
  (`DryRunRefines.EmptyRootDiffers`).

## Model

| member | source | states |
|---|---|---|
| AgentRuns.ApplyKeepsInv | internal/agentruns/agentruns.go:117-149 | every step of every process, and every stop, keeps the invariant that ties program counters, locks, directories, rows and contract files together |
| AgentRuns.ReachableInv | internal/agentruns/agentruns.go:81-317 | the invariant holds after any events of any processes |
| AgentRuns.ProtectedRunIsThere | internal/agentruns/agentruns.go:186-208 | from an execute's check under the lock until it unlocks, its directory, row and contract file are there, it holds the lock, and its list is the stored one plus at most its own record |
| AgentRuns.ResultAlwaysHasAPlace | internal/agentruns/agentruns.go:304-315 | no execute ever finds its directory or its row gone when it writes its result |
| AgentRuns.ProtectedRunIsLeftAlone | internal/agentruns/agentruns.go:136-149 | no other process's step changes a protected run's directory, row or contract file |
| AgentRuns.OnlyOwnRunsChange | internal/agentruns/agentruns.go:117-149 | whatever happens in one process changes nothing of a run that it neither prepares, executes nor is removing |
| AgentRuns.OnlyOwnLocksChange | internal/agentruns/agentruns.go:117-135 | a lock is taken only while it is free, by a process that is about to work on its run, and let go of only by its holder, when it ends |
| AgentRuns.OnlyListedRunsGo | internal/agentruns/agentruns.go:136-149 | a row goes only by a clean that has listed its run, and only when all the directories it has listed are gone; a directory goes only by such a clean, or by the process still preparing it |
| AgentRuns.PrepareMakesARun | internal/agentprep/agentprep.go:133-260 | a prepared run has its directory, its row and its contract file, with an empty list, and nothing else has changed |
| AgentRuns.LockFreeDeletionIsOfADeadRun | internal/agentruns/agentruns.go:117-125 | a deletion listed without a lock is of a run whose directory stays missing and that no execute is past its check on |
| AgentRuns.StoredListIsThePersistedOne | internal/agentruns/agentruns.go:303-315 | a live row's commands are exactly the persisted records in lock order; its contract file has them, or them and one unpersisted record |
| AgentRuns.RunOnlyGrows | internal/agentruns/agentruns.go:304-315 | nothing persisted is taken back, and a directory or row once gone stays gone |
| AgentRuns.PersistedRecordStays | internal/state/store.go:924-947 | a persisted record is in its row for as long as the row exists |
| AgentManager.ListRuns | internal/state/store.go:784-813 | the listing has every row once |
| AgentManager.Manager.LockRun | internal/agentruns/agentruns.go:171-203 | the part of Execute up to the check under the lock: it ends with the lock, or gives up for what it saw during the call; undisturbed, it takes a run that is there and free |
| AgentManager.Manager.RunCommand | internal/agentruns/agentruns.go:209-317 | once the run is locked and checked, the check after the command, the write and the update cannot fail, whatever others do |
| AgentManager.ExecuteAddsItsRecord | internal/agentruns/agentruns.go:153-317 | undisturbed on a free run, an execute adds its record to the list in the row and in the contract file, and changes nothing else |
| AgentManager.Manager.Execute | internal/agentruns/agentruns.go:153-317 | when Execute returns a record, the row has it, under a lock taken since the call, whatever others do meanwhile; it fails only for what it saw before the lock was checked, or when its command cannot be run; undisturbed on a free run, it succeeds |
| AgentManager.Manager.Clean | internal/agentruns/agentruns.go:81-151 | kept and deleted runs are all the listed ones, only expired ones are deleted, and their rows and directories are gone; an expired run is kept only if its lock was held during the call; whatever others do, no step of the clean changes anything of another run; undisturbed, it deletes exactly the expired runs whose directory is missing or whose lock is free, and everything else is as it was |
| AgentManager.ScanAccounts | internal/agentruns/agentruns.go:117-135 | each step of the scan keeps the tally of kept, listed and remaining runs, and moves on |
| AgentStorage.ValidRunIds | internal/agentruns/agentruns.go:550-555 | the ids that pass are the plain names that are not blank, and "/" |
| AgentStorage.ManagedRunDirIsItsOwn | internal/agentruns/agentruns.go:319-336 | a passing id's directory is a direct child of the agents directory exactly if the id is not "/" |
| AgentStorage.RunDirsAreApart | internal/agentruns/agentruns.go:319-336 | different ids have directories that do not contain one another |
| AgentStorage.LockFilesSurvive | internal/agentruns/agentruns.go:458-474 | removing a run's directory keeps the lock files of the others exactly if its id is not ".locks" |
| Paths.CleanIsNormal | internal/workspacemanifest/manifest.go:815-821 | a cleaned path has no empty, "." or inner ".." segment, and a rooted one no ".." at all |
| Paths.CleanText | internal/workspacemanifest/manifest.go:815-821 | cleaning the text of a clean path gives it back |
| Paths.CleanLaws | internal/workspacemanifest/manifest.go:815-821 | anywhere in a path an empty segment, ".", or a name with ".." after it counts for nothing, nor does ".." at the start of a rooted path |
| Paths.TrimTakesSpace | internal/workspacemanifest/manifest.go:815-821 | trimming takes white space from both ends, and nothing else |
| Paths.AncestorIsProperPrefix | internal/workspacemanifest/manifest.go:910-916 | `pathIsAncestor` is being a proper prefix |
| Paths.InsideIsPrefix | internal/agentruns/agentruns.go:401-415 | `pathInside` is being a prefix |
| Paths.WithinIsProperPrefix | internal/hydrationexecutor/executor.go:130-133 | `pathWithin` on absolute clean paths is being a proper prefix |
| Paths.OverlapsIsComparable | internal/hydrationexecutor/executor.go:121-128 | `pathsOverlap` is one path being a prefix of the other |
| Paths.SplitJoined | internal/agentprep/agentprep.go:513-515 | splitting at slashes undoes joining with them |
| Names.NumberedInjective | internal/workspacemanifest/manifest.go:727-753 | different project ids or suffixes give different temporary and rollback aliases |
| Names.CandidatesInjective | internal/registry/registry.go:430-443 | no candidate of a search comes twice |
| Names.FirstFreeIsFree | internal/workspacemanifest/manifest.go:727-753 | the search ends, at the first candidate that is not in use |
| Names.Search | internal/workspacemanifest/manifest.go:727-753 | the unbounded loop ends at that candidate |
| Names.DecimalReadsBack | internal/registry/registry.go:437-442 | a number's numeral reads back as the number, without a zero in front |
| Names.UniqueAlias | internal/registry/registry.go:430-443 | the alias itself if it is free, and otherwise the alias with the least number, from 2 on, with which it is |
| Globs.MatchFrom | internal/agentprep/agentprep.go:516-537 | the recursion over indices with its search loop computes the match of the remaining segments |
| Globs.MatchHandoffGlob | internal/agentprep/agentprep.go:513-539 | a pattern matches exactly if its `**` can be assigned runs of segments and its other segments one each |
| Globs.MatchesIsMeaning | internal/agentprep/agentprep.go:516-537 | the recursive match is the declarative meaning |
| Globs.SplitLaw | internal/agentprep/agentprep.go:516-537 | a pattern in two parts matches exactly the paths that split into parts matched by each |
| Globs.DoubleStarIsStar | internal/agentprep/agentprep.go:519-528 | `**/**` anywhere in a pattern matches the same paths as `**` |
| Projects.ProjectStore.ListProjects | internal/state/store.go:576-600 | every row is listed once |
| Projects.ProjectStore.AddProject | internal/state/store.go:397-443 | the row is added under a new id unless a field is missing or its alias or remote is taken; a failing call changes nothing |
| Projects.ProjectStore.UpdateProject | internal/state/store.go:505-556 | the row is replaced unless a field is missing, its alias or remote is another row's, or there is no such row |
| Projects.ProjectStore.UpsertProject | internal/state/store.go:445-503 | a row with the same remote keeps its alias and, if canonical, all but its local path; a local-only one takes over the rest, with its canonical path where it was found; else the project is added |
| Projects.ProjectStore.DeleteProject | internal/state/store.go:558-574 | the row is removed |
| Projects.CheckedKeepsSound | internal/state/store.go:412-427 | a project that passes the checks leaves all aliases and remotes unique |
| Projects.MergedFields | internal/state/store.go:470-495 | what an upsert leaves of the row, field by field |
| Projects.MergedKeepsSound | internal/state/store.go:470-495 | so does a merge with the row of the same remote |
| Manifest.NormalDesired | internal/workspacemanifest/manifest.go:815-821 | a desired path is missing exactly if it is blank, and otherwise becomes a clean path |
| Manifest.NormalStaysNormal | internal/workspacemanifest/manifest.go:815-821 | a clean path is kept as it is, whatever blanks are around its text |
| Manifest.ValidEntries | internal/workspacemanifest/manifest.go:220-246 | an entry is valid exactly if it has the current version, an identity, an alias, and a relative desired path of plain names |
| Hosts.CanonicalPath | internal/workspacemanifest/manifest.go:863-882 | the loop that appends the missing names in reverse finds where the nearest existing ancestor leads, with the rest appended |
| Hosts.RealPath | internal/hydrationexecutor/executor.go:350-375 | the loop that puts the missing names in front of each other finds the same path, or fails exactly if nothing resolves or something on the way could not be checked |
| Hosts.RealIsCanonical | internal/hydrationexecutor/executor.go:350-375 | with a root that resolves, and no error but a missing path, both loops return the same path |
| Hosts.CanonicalBelow | internal/workspacemanifest/manifest.go:449-450 | resolving the root first, and then the path below it, is resolving the path |
| Hosts.CanonicalTwice | internal/workspacemanifest/manifest.go:888-892 | resolving twice is resolving once |
| PlanImport.CollectRows | internal/workspacemanifest/manifest.go:416-433 | the first loop over the rows collects the projects, paths and alias owners |
| PlanImport.CollectSeenPaths | internal/workspacemanifest/manifest.go:438-446 | the second loop over the rows collects the paths that are kept |
| PlanImport.FindNested | internal/workspacemanifest/manifest.go:894-904 | a path nests with another owner's exactly if the loop says so, in whatever order it goes |
| PlanImport.WithinRootIsPrefix | internal/workspacemanifest/manifest.go:888-892 | a place is in the workspace exactly if the resolved root is a prefix of the resolved place |
| PlanImport.PlanUpdate | internal/workspacemanifest/manifest.go:513-563 | the change for a known project, with exactly the fields that differ, unless its new place is taken; with no hint it keeps its clone URL |
| PlanImport.UpdateRenews | internal/workspacemanifest/manifest.go:513-563 | a change for a known project makes of its row what the entry wants, names exactly the fields in which that differs, each once, and is no change exactly if none does |
| PlanImport.PlanEntry | internal/workspacemanifest/manifest.go:447-565 | one turn of the loop: an entry conflicts exactly if its identity came before, its place or alias is taken, or its directory is not free; it always does if its place leads out of the workspace |
| PlanImport.PlanImport | internal/workspacemanifest/manifest.go:394-567 | the plan has a change for each entry, made in the state the entries before it left; it fails exactly for a blank root or an invalid entry |
| ConflictFree.ConflictFreeIsClear | internal/workspacemanifest/manifest.go:447-565 | in a plan without conflicts every entry is clear and has the change that goes with it |
| ConflictFree.EntriesApart | internal/workspacemanifest/manifest.go:469-503 | two entries of such a plan differ in identity and alias, and neither place contains the other |
| ConflictFree.LayoutIsApart | internal/workspacemanifest/manifest.go:475-516 | the desired places lie in the workspace, form an antichain, and are apart from the paths kept by other projects |
| ConflictFree.LayoutIsInside | internal/workspacemanifest/manifest.go:453-460 | in a plan without conflicts every place leads to one below where the workspace root leads |
| ConflictFree.OwnerMakesWay | internal/workspacemanifest/manifest.go:428-432 | the row that has an alias an entry wants is itself updated |
| ConflictFree.ConflictFreeFits | internal/workspacemanifest/manifest.go:394-567 | a plan without conflicts fits the registry: updates of different rows to different aliases, adds of new identities, and whoever has a wanted alias gives it up |
| ImportStages.TempRenameSucceeds | internal/workspacemanifest/manifest.go:615-634 | a temporary rename trips no uniqueness check |
| ImportStages.FinalUpdateSucceeds | internal/workspacemanifest/manifest.go:636-653 | no final update does, in whatever order they come and whatever permutation of aliases they make |
| ImportStages.AddSucceeds | internal/workspacemanifest/manifest.go:313-328 | no add does, even of an alias an update has freed |
| ImportStages.RenameSucceeds | internal/workspacemanifest/manifest.go:693-699 | a rename of the rollback succeeds exactly if its alias is clear of the rows left alone, of the later updates, and of the renames refused before |
| ImportStages.RestoreSucceeds | internal/workspacemanifest/manifest.go:712-720 | an original can be restored exactly if no other row still has its alias |
| ImportStages.NoneBlockedIsExact | internal/workspacemanifest/manifest.go:702-720 | all originals can be restored, in the order of their ids, exactly if no row whose rename was refused comes after the row that had its alias |
| ImportStages.ClearIsExact | internal/workspacemanifest/manifest.go:687-725 | a rollback in which no rename is refused restores everything |
| ImportStages.DeleteUndoesAdd | internal/workspacemanifest/manifest.go:657-672 | deleting the last added row gives the table before it |
| ApplyImport.DrawTempAliases | internal/workspacemanifest/manifest.go:594-614 | rows whose alias is to change get different aliases that nobody has or wants |
| ApplyImport.ApplyImportUpdates | internal/workspacemanifest/manifest.go:582-655 | all updates are made exactly if the store lasts for that many calls; the failing call determines how many rows had their final content, and their rollback is as below |
| ApplyImport.RollbackImportUpdates | internal/workspacemanifest/manifest.go:687-725 | the rollback reports no error exactly if its aliases are clear; the rows are as they were before the import exactly if no row that could not be renamed comes after the row that had its alias |
| ApplyImport.RestoreOriginals | internal/workspacemanifest/manifest.go:702-720 | restoring in the order of the ids reports no error exactly if no row is blocked by a later one, and exactly then the rows are the old ones |
| ApplyImport.RollbackImportAdds | internal/workspacemanifest/manifest.go:657-672 | all added rows are removed and the others are as they were |
| ApplyImport.ApplyImportChanges | internal/workspacemanifest/manifest.go:306-331 | the import goes through exactly if no call up to its last fails, and the table then becomes the old rows overlaid with the updates, and the adds; after a failing call the rows are the old ones exactly if the rollback of the updates made by then is exact |
| ApplyImport.ApplyImportPlan | internal/workspacemanifest/manifest.go:275-304 | a conflict refuses the plan with nothing changed, a failure in a transaction leaves the table as it was, and one outside leaves it so exactly if the rollback is exact |
| ApplyImport.InTransaction | internal/state/store.go:376-395 | a transaction around an import ends with all that the import does, or with the rows it began with |
| RollbackLimits.ReservedFormMakesRollbackClear | internal/workspacemanifest/manifest.go:687-699 | if no other row has, and no update wants, an alias of the reserved form, every rollback reports no error and is exact |
| RollbackLimits.RollbackCanFail | internal/workspacemanifest/manifest.go:687-725 | a manifest that swaps two aliases, planned without conflict, whose rollback is refused twice because a third project has an alias of that form; the table it leaves has a project under a rollback alias |
| RollbackLimits.SwapFails | internal/workspacemanifest/manifest.go:306-331 | importing that plan when its fifth call, the add, fails: an error is reported for the rollback, and the table has changed |
| RollbackLimits.AllPlanned | internal/workspacemanifest/manifest.go:447-565 | a manifest of renames in place and adds is planned with exactly these changes |
| RollbackLimits.UnclearCanBeExact | internal/workspacemanifest/manifest.go:687-725 | a manifest that renames one project and adds another, planned without conflict while a third project has the alias the rollback draws: the rollback is not clear, but it is exact |
| RollbackLimits.RenameFails | internal/workspacemanifest/manifest.go:306-331 | importing that plan when its third call, the add, fails: an error is reported for the rollback, and every row is as it was |
| Importing.ApplyManifest | internal/workspacemanifest/manifest.go:257-273 | a valid manifest without conflicts is applied in full exactly if no call fails, and nothing changes when it is invalid or refused, or fails in a transaction; after a success the whole table is what the entries want |
| Validation.ValidateWorkspace | internal/workspacemanifest/manifest.go:180-212 | a manifest is accepted exactly if its entries are valid, of different identities and aliases, at places that do not contain one another |
| Validation.NestsIsOverlap | internal/workspacemanifest/manifest.go:214-218 | the equality and nesting tests on relative paths are comparability |
| Validation.ValidPlansToAdds | internal/workspacemanifest/manifest.go:394-516 | an accepted manifest plans to adds only, on an empty registry and an absent or empty workspace root |
| Replan.AppliedIsSettled | internal/workspacemanifest/manifest.go:755-765 | the row an import leaves has the entry's alias, place and hint, and needs no further update unless it is late; a known project's clone URL is kept without a hint, and its local path unless both its paths were the same and nothing was there |
| Replan.EntryHasRow | internal/workspacemanifest/manifest.go:582-655 | after an import every entry's project has its row |
| Replan.ImportRenews | internal/workspacemanifest/manifest.go:275-331 | the whole table after an import: each entry's project has the row it had, renewed, or a new one, and all other rows are as they were |
| Replan.ReplanIsUnchanged | internal/workspacemanifest/manifest.go:394-567 | planning the same manifest again has no conflict, and everything is unchanged but exactly the late rows |
| Replan.SecondImportCanChange | internal/workspacemanifest/manifest.go:513-563 | a workspace root that is a link, and a local-only row that a second import still changes |
| Replan.NoLinksNoLate | internal/workspacemanifest/manifest.go:513-563 | without symbolic links no row is late |
| Exporting.RelativeIsRest | internal/workspacemanifest/manifest.go:843-861 | the derived desired path is the rest of the path below the root, and fails exactly outside it |
| Exporting.ExportProjects | internal/workspacemanifest/manifest.go:333-364 | an entry for each row, in order of desired path and identity; it fails exactly if a row cannot be exported |
| Exporting.OrderIsLexical | internal/workspacemanifest/manifest.go:357-362 | entries come by the first character in which their desired paths differ, a prefix first, and by their identities where the paths are the same |
| Exporting.OrderIsUnique | internal/workspacemanifest/manifest.go:373-392 | lists in order with the same entries are the same list |
| Exporting.ImportExport | internal/workspacemanifest/manifest.go:333-364 | importing a manifest on an empty machine and exporting gives the same entries in the same order |
| Exporting.RoundTrip | internal/workspacemanifest/manifest.go:333-364 | export, import under another root and export again give the same identities, aliases and desired paths, and every clone hint the first export kept |
| Reconciliation.DriftPlan.AddConflict | internal/reconciliation/reconciliation.go:247-259 | the conflict becomes a drift and a blocker, and the plan is blocked; the blockers are always the conflicting drifts, in order |
| Reconciliation.DryChecks | internal/reconciliation/reconciliation.go:159-193 | the checks before the row is looked at, and what is recorded even if another check fails |
| Reconciliation.DryPlacement | internal/reconciliation/reconciliation.go:195-226 | an entry is missing, moved, unchanged or conflicting by its row, the owner of its path and its directory |
| Reconciliation.BuildDryRunPlan | internal/reconciliation/reconciliation.go:93-245 | each entry has its drift, with its identity, alias, place and clone URL, and the id and local path of its project's row once the early checks are passed; there is one for each row that is not in the manifest; the blockers are the conflicting drifts, in order, and the plan is blocked exactly if there is one |
| DryRunRefines.SameDecision | internal/reconciliation/reconciliation.go:159-227 | from the same state the dry run passes an entry exactly if the planner does and the workspace root is not taken |
| DryRunRefines.DryRunRefinesPlan | internal/reconciliation/reconciliation.go:145-227 | the dry run is not blocked exactly if the plan has no conflict and no root is taken, and its drifts then announce the plan's actions |
| DryRunRefines.OutsideConflicts | internal/reconciliation/reconciliation.go:165-169 | where a place leads out of the workspace, dry run and planner both find a conflict |
| DryRunRefines.EmptyRootDiffers | internal/workspacemanifest/manifest.go:947-967 | an empty workspace root on which the two differ |
| Disks.Disk.Rename | internal/hydrationexecutor/executor.go:411-422 | a rename moves everything below the old path to the new one, if nothing is there |
| Disks.MovedIsRooted | internal/hydrationexecutor/executor.go:411-422 | a rename leaves everything in a folder |
| Disks.StatIsFoldersAbove | internal/hydrationexecutor/executor.go:135-150 | a path can be looked at exactly if there are only folders above it |
| Placeholders.OwnedByAllowing | internal/placeholder/placeholder.go:72-125 | a directory is owned exactly if it has the three files of the project's placeholder with their exact contents, and nothing else but the allowed path |
| Placeholders.UntouchedIsSighted | internal/placeholder/placeholder.go:40-66 | an untouched placeholder shows its project's alias and identity, and its own path |
| Placeholders.TextsAreLawful | internal/placeholder/placeholder.go:192-198 | the barrier text never makes a directory a Git checkout, however it is trimmed |
| Cloning.MoveContents | internal/hydrationexecutor/executor.go:411-422 | all entries, with all that is below them, are at the destination and gone from the source, and nothing else has changed |
| Cloning.FillDestination | internal/hydrationexecutor/executor.go:229-243 | an empty destination becomes the cloned tree and the temporary directory is gone |
| Cloning.FillPlaceholder | internal/hydrationexecutor/executor.go:255-269 | so does the workspace root's placeholder, its files being removed first |
| Cloning.SwapPlaceholder | internal/hydrationexecutor/executor.go:271-278 | so does a placeholder that is removed and replaced |
| Cloning.CloneDirectly | internal/hydrationexecutor/executor.go:195-228 | so does a missing destination, with its parents made |
| Cloning.Clone | internal/hydrationexecutor/executor.go:135-291 | what a clone comes to for each kind of destination, whatever a user does inside it while git runs and however git ends; only paths that have the workspace root as a prefix are cloned to |
| Cloning.WithinRootIsInside | internal/hydrationexecutor/executor.go:331-348 | a destination passes the check against the workspace root exactly if the root is a prefix of it, and only folders are above it |
| Cloning.ClonesStayInside | internal/hydrationexecutor/executor.go:135-206 | outside of the workspace nothing is cloned and nothing changes; inside of it no clone is refused for its path |
| Cloning.AllRoutesAgree | internal/hydrationexecutor/executor.go:135-291 | by every route the destination becomes exactly the tree and all else stays; a clone succeeds exactly if the destination could be filled before and after git |
| Cloning.NothingIsLost | internal/hydrationexecutor/executor.go:229-278 | all that a clone into a folder removes are the files of a placeholder that is untouched after git; a failed one leaves what the user made |
| Planner.CloneIsPlannedFor | internal/hydrationplanner/planner.go:217-316 | a clone is planned exactly for a missing directory, an empty one, and an untouched placeholder of the project |
| Planner.PlaceholderIsRecognised | internal/hydrationplanner/planner.go:233-268 | an untouched placeholder is planned as one, never as present or in conflict |
| Planner.SameJudged | internal/hydrationplanner/planner.go:217-280 | what is planned for a place depends only on the place itself, and not on which of the folders above it are there |
| Planner.OutsideRootIsMisplaced | internal/hydrationplanner/planner.go:194-217 | a project is refused for its place exactly if it is canonical and the workspace root is no prefix of its canonical path; all others are judged by their path, which is the local one of a local-only project |
| Planner.PresentHasGit | internal/hydrationplanner/planner.go:232-237 | a project is present exactly if its directory has a `.git` folder, or a `.git` file that points to a git directory |
| Execution.Preflight | internal/hydrationexecutor/executor.go:74-96 | the plan passes exactly if nothing is refused, what is present matches, and no two paths contain one another |
| Execution.PassingIs | internal/hydrationexecutor/executor.go:74-96 | the plan passes exactly if nothing is refused, what is present matches, and no path that is cloned to or present is a prefix of another |
| Execution.AddPlannedPath | internal/hydrationexecutor/executor.go:107-119 | a path is recorded unless it overlaps one that is |
| Execution.EarlierTreeStays | internal/hydrationexecutor/executor.go:97-105 | a later clone leaves an earlier clone's tree as it is |
| Execution.PresentStays | internal/hydrationexecutor/executor.go:74-105 | a directory that was present is left alone by all clones |
| Execution.PlannedCloneSucceeds | internal/hydrationexecutor/executor.go:150-206 | a clone planned for what is on the disk succeeds if git does and the workspace root is a prefix of its path |
| Execution.PlaceStays | internal/hydrationexecutor/executor.go:97-105 | the clones before it leave the place of a later clone as it was, and nothing above it but new folders |
| Execution.Execute | internal/hydrationexecutor/executor.go:64-105 | no clone is started unless the plan passes; exactly the first clone that cannot go through from the state before the run stops it; those before it are reported, each with its tree, and nothing else has changed; all of them are in the workspace |
| Materializing.Write | internal/placeholder/placeholder.go:127-182 | a placeholder is written where nothing or an empty folder is, an untouched one is left as it is, and all else is an error that changes nothing |
| Materializing.WrittenIsUntouched | internal/placeholder/placeholder.go:127-182 | a written placeholder is owned |
| Materializing.UntouchedKept | internal/bootstrap/bootstrap.go:328-336 | writing one placeholder does not spoil another |
| Materializing.PreflightPlaceholders | internal/bootstrap/bootstrap.go:339-363 | the candidates are returned exactly if no two paths contain one another and all are in the workspace; the workspace root is a prefix of each |
| Materializing.PassingIsInside | internal/bootstrap/bootstrap.go:339-363 | the paths pass exactly if none of those taken is a prefix of another, and the workspace root is a prefix of every candidate, with only folders above it |
| Materializing.Materialize | internal/bootstrap/bootstrap.go:322-337 | nothing is written unless all paths pass; after a success every candidate is owned and all paths still pass, and in such a state nothing is written |
| Materializing.OwnedIsPlannedAsPlaceholder | internal/hydrationplanner/planner.go:233-268 | once its placeholder is written, a project's next action is the same but for its state, which is placeholder |
| Bootstrap.PlanRegistry | internal/bootstrap/bootstrap.go:86-115 | one action for each selected row, and one refusal for each alias nobody has, in the order in which the names asked for first come; an error exactly for a blank name; exactly the canonical projects outside of the workspace are refused for their place |
| Bootstrap.PlacingSucceeds | internal/bootstrap/bootstrap.go:456-472 | recording where a project was cloned trips no uniqueness check |
| Bootstrap.PersistPlacements | internal/bootstrap/bootstrap.go:456-472 | exactly the cloned canonical projects with another local path get theirs recorded, in order, up to a failing call |
| Bootstrap.Converges | internal/bootstrap/bootstrap.go:270-294 | after all clones, planning again finds every selected project present |
| Bootstrap.ApplyRegistry | internal/bootstrap/bootstrap.go:270-294 | after a success exactly the cloned canonical projects have local path and canonical path the same, other rows are as they were, nothing on the disk has changed but the clones and their parents, and the same request clones and records nothing; after a failed clone exactly the clones before the first that cannot go through are on the disk, and none is recorded or reported; with a selected canonical project outside of the workspace it is blocked, and changes nothing |
| Bootstrap.NothingLeftToDo | internal/bootstrap/bootstrap.go:456-472 | a plan in which everything is present clones nothing and records nothing |
| Bootstrap.NothingHappens | internal/bootstrap/bootstrap.go:270-294 | carrying such a plan out leaves the disk and the registry alone, even if a checkout turns out not to match |
| FailureReports.FailureReport | internal/bootstrap/bootstrap.go:278-287 | the empty report after a failed clone is what was cloned exactly if nothing was started or the plan's first clone cannot go through, and so always in a plan with at most one clone |
| FailureReports.TwoClones | internal/bootstrap/bootstrap.go:278-287 | two missing projects of which git clones only the first: its checkout is on the disk, and no clone is reported |
| RegistryPlaceholders.PresentIsStillThere | internal/bootstrap/bootstrap.go:322-337 | a checkout that was present is still one after the placeholders were written |
| RegistryPlaceholders.AllLaidOut | internal/bootstrap/bootstrap.go:296-320 | with its placeholders written and its places recorded, every selected project is planned as present or as a placeholder |
| RegistryPlaceholders.PlannedAgain | internal/bootstrap/bootstrap.go:296-320 | every action of a later plan is for the same directory as before, is not refused, and has its placeholder already |
| RegistryPlaceholders.AgainIsNothing | internal/bootstrap/bootstrap.go:296-320 | after a success every plan for the same request passes, writes nothing and records nothing |
| RegistryPlaceholders.CandidatesAreClones | internal/bootstrap/bootstrap.go:365-380 | the placeholders of a plan are for exactly the projects it would clone, in order |
| RegistryPlaceholders.PlaceholdersRegistry | internal/bootstrap/bootstrap.go:296-320 | after a success every selected project is present or has its placeholder, planning again says so, and running it again succeeds and changes nothing; a refused plan changes nothing, and one that fails at a placeholder only leaves placeholders, and reports none |
| DiskHosts.HostIsLawful | internal/workspacemanifest/manifest.go:863-945 | a file system without symbolic links is a lawful host for the planners |
| DiskHosts.RealIsItself | internal/hydrationexecutor/executor.go:350-375 | without symbolic links a path resolves to itself if there are only folders above it, and fails to otherwise |
| DiskHosts.WithinRootIsReal | internal/hydrationexecutor/executor.go:331-348 | the check of a destination is the one by the resolved root and the resolved path |
| DiskHosts.FreeHasNoConflict | internal/workspacemanifest/manifest.go:932-989 | a place is free exactly if nothing is there and only folders are above it, or if it is the workspace root, and empty |
| DiskHosts.BlockedOnDisk | internal/workspacemanifest/manifest.go:478-565 | an entry is blocked on a disk exactly if its project is not registered at the place already, and the place is another project's, or not free and not the project's own directory |
| BootstrapRun.PlanBoth | internal/bootstrap/bootstrap.go:118-141 | after a dry run that is not blocked, the import plan has no conflict |
| BootstrapRun.PlanEntries | internal/hydrationplanner/planner.go:127-160 | after a dry run that is not blocked, the hydration plan is refused exactly if a known project cannot be cloned at its desired place |
| BootstrapRun.PlanRun | internal/bootstrap/bootstrap.go:117-141 | the part that only looks stops exactly for an invalid entry, else a blocked dry run, else a refused hydration plan; otherwise the import plan has no conflict |
| BootstrapRun.MakeParents | internal/bootstrap/bootstrap.go:143-149 | the parents can be made exactly if nothing but folders is at or above one of them; then all of them are there, and nothing else has changed |
| BootstrapRun.PlaceIsJudgedTheSame | internal/bootstrap/bootstrap.go:143-149 | making the parents changes nothing about what is planned for an entry's place |
| BootstrapRun.ImportPlaces | internal/workspacemanifest/manifest.go:275-304 | after the import every entry's project has a canonical row at its place in the workspace |
| BootstrapRun.RenewedOnDisk | internal/workspacemanifest/manifest.go:513-563 | a known project's row after an import, on a disk: without a hint it keeps its clone URL, and it keeps its local path unless both its paths were the same and nothing was there |
| BootstrapRun.HinderedIsLost | internal/hydrationplanner/planner.go:127-160 | an entry that passes the dry run and its hydration plan is refused at its place under its new alias exactly if its project's untouched placeholder is there under another one |
| BootstrapRun.BlockedIsHindered | internal/bootstrap/bootstrap.go:245-268 | the plan for the imported entries is blocked exactly if what is at an entry's place is refused |
| BootstrapRun.Import | internal/bootstrap/bootstrap.go:117-155 | it stops early exactly for an invalid entry, a blocked dry run or a refused hydration plan, and changes nothing then; nothing is ever in the way of the parents; after an import every project has its parent directory and the row its entry wants, and the rows of other projects are as they were |
| BootstrapRun.Hydrate | internal/bootstrap/bootstrap.go:156-179 | planning, cloning and recording for the entries' aliases puts a checkout at every place and changes nothing else but parents; it is blocked exactly if an entry's place is refused; after a failed clone exactly the clones before the first that cannot go through are on the disk, and none is recorded or reported |
| BootstrapRun.Apply | internal/bootstrap/bootstrap.go:117-180 | after a success every entry's project has its row at its place, its checkout is there, planning again finds all of them present, and all other rows and the rest of the disk are as they were but for parents; a failure before the import changes no row; after it the new plan is blocked exactly if a project lost its placeholder to a new alias, and a failed clone leaves the clones before it |
| LostPlaceholders.RenamePlaceholder | internal/bootstrap/bootstrap.go:117-163 | one project with its untouched placeholder at its place, for which the manifest has another alias: the import goes through, and the new plan is blocked |
| Scan.IsNested | internal/registry/registry.go:417-428 | a project is nested exactly if it is inside a discovered root |
| Scan.Record | internal/registry/registry.go:178-188 | with an alias that is not in use, an upsert is never refused |
| Scan.OutsideIsFound | internal/registry/registry.go:133-188 | a project with a supported remote that is inside none of those visited before is found, and as it is if its remote is new |
| Scan.NestedIsSkipped | internal/registry/registry.go:144-152 | a project inside one that was visited before is skipped, whatever became of that one |
| Scan.FindIsVisit | internal/registry/registry.go:153-188 | everything found is what one of the visits found |
| Scan.ScanWorkspace | internal/registry/registry.go:110-210 | without a failing call a scan goes through, and finds exactly what its trail says; canonical rows keep all but their local path, the row of each other remote found is local-only where it was found first, with the clone URL found, other rows are untouched, and the lists returned are exactly the new, changed and unchanged rows of the remotes found and account for every visit |

## Left out

- AgentRuns.ReachableInv: run ids are assumed fresh (a directory is made only for an id never used before), removing a directory is one step, the contract file is replaced in one step, and commands leave it alone.
- AgentManager.Manager.Clean: whether a run has expired is a predicate given for the call; creation times and the clock are not modelled.
- AgentStorage.ValidRunIds: the checks for symbolic links and for the kind of the entries in a run's storage are left out, and Windows locking with them.
- Globs.MatchHandoffGlob: what one segment matches is a parameter; which documents are collected for a hand-off is left out.
- Projects.ProjectStore.ListProjects: the order of a listing is left open, and nothing depends on it; trimming of blanks in text fields is left out.
- PlanImport.PlanImport: the text checks of identities, clone hints and URLs, and the reasons given with a conflict, are left out; entries are taken as normalised and stored rows as complete, which every write to the store ensures.
- Hosts.CanonicalPath: symbolic links are known only by the function that resolves a path.
- Exporting.ExportProjects: what is kept of a clone URL as a hint is a function that keeps its own results; the sort is an insertion into an ordered list.
- Reconciliation.BuildDryRunPlan: the order of the drifts for rows that are not in the manifest, and the kinds and reasons of blockers, are left out.
- Replan.ReplanIsUnchanged: it assumes that no two projects record a common path.
- Cloning.Clone: file modes, partial failures of single file operations other than git, and symbolic links inside the workspace are left out; no cloned tree has an entry of the name drawn for the temporary directory; the user's edits are one step while git runs, and none in a destination that git itself creates; the root directory is no destination.
- Placeholders.OwnedByAllowing: the JSON encoding is any lossless one, and an error counts as not owned.
- Planner.CloneIsPlannedFor: project policies are taken as valid.
- Execution.Execute: nobody else changes the disk during the run; whether a present checkout matches its project is a parameter.
- Bootstrap.PlanRegistry: the names asked for are taken as already trimmed, while the source drops repeated names before it trims them, so that names that differ only in blanks give two actions for one project; the order of the actions by alias in a plan for all projects is left out.
- Bootstrap.ApplyRegistry: no project is at the root directory itself.
- Scan.ScanWorkspace: the walk is given as the `.git` entries it meets, with what git tells of each.
- BootstrapRun.Apply: directories and projects at the root directory itself are left out; the store is one with transactions. The placeholder run from a manifest has the same parts as this run and the one from the registry, and is left out.
- The command line, rendering, artifacts, readiness, policies, toolchains, environment bindings and target export.
- Git, SQL, migrations, JSON and YAML libraries, time, random ids and process groups.
- Agent contracts keep only their command list; normalisation of contracts and of sparse paths is left out.
