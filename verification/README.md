# Verified models of the Ompire daemon

Ompire runs coding agents for an operator. Its daemon moves files into checkouts that people are working in, hands live agent processes from one model policy to the next, relays request bodies and scrubs credentials from streams, compiles workflow documents, and carries an operator's state across upgrades. This project models the parts of it whose correctness depends on ordering, crashes, interleavings, or exact stream and tree algorithms, and proves what those parts promise. The code that works by changing things step by step is modelled as classes and methods with loops; the code made of expressions is modelled as functions. Each method is proved against a specification, and the promises are lemmas about those specifications.

## What is modelled

**Checkout export** (`filesystem`, `export_*`). An export previews a selection against an operator's checkout, reserves the checkout's root in the journal, stages every file in a directory of its own, journals each staged inode, moves each file into place with a rename that never replaces anything, journals the outcome, and cleans up. Later passes only look. The file system is a set of inodes and directory entries with inode numbers that are never used twice. `ExportHost.Host` offers one system call or journal write at a time; before each of them a schedule may let everybody else change anything outside the staging directory, delete it or put something else under its name, change what the registered checkout path leads to, make the call fail, or kill the daemon. The one thing they may not do is give the staging directory, or a file waiting in it, another name: `ExportSafety.HonestyLimit` shows that this is exactly where the invariant ends, and `ExportLimits` has the two ways in which losing it makes the journal claim what was not done. A dead daemon's later calls have no effect, so that a crash can fall between any two calls, and a new daemon may then reconcile, recheck or acknowledge any number of times.

- `ExportManager.Lifetime` is the safety theorem over all of that: `created` is recorded only for a file whose staged inode this export itself moved, with the approved bytes, under the approved name, and into the very directory the preview saw, where it saw one; what was never journalled as staged was never moved; and every step left all names outside the staging directory, and all inodes the export did not create, as it found them, exactly unless it was one of the two described below, an unlink in a staging directory that others had filled or supplied, or the removal of a directory that others had put under the staging name. `ExportManager.RunExport` adds that an installation with no other pass over its export beside it never leaves a file that it moved recorded as not installed, and `ExportManager.Reconcile` that a later pass records a staged file as not installed only if it saw its destination missing, so that with the checkout gone everything staged becomes `unknown`.
- `ExportRun.ExportUndisturbed` is the functional theorem: preview, confirmation and installation with nobody else at work are refused exactly when the selection is unusable or a destination is neither free nor already identical; otherwise the run ends `completed`, and the tree is the old one with every free destination, under the components of the prefix and of its path, and the directories missing on the way, and nothing else.
- `ExportRegistry.Registry` is the journal seen by all clients. No root ever has two running or unresolved exports, whatever is asked in whatever order. A recheck or a settlement is two transactions with a look at the checkout in between, and neither its last write nor an installation's asks what has been written since: `ExportRegistry.Registry.Serve` shows that a request revises a settled outcome exactly if it records an outcome over a different settled one, or reports a file that was settled differently since the pass read it, and that nothing settled is revised if no request does. `ExportClients.ServeExport` joins any number of such passes with the checkout they look at: whatever they do to each other, `created` is recorded only for what this export moved.

**Agent sessions** (`agent`). `AgentSupervision.AgentSupervisor` has the supervisor's fields, and one method for each piece of code between two awaits, whose contract gives the whole state that follows. `Run` takes any schedule of callers, answers, deaths, exit watchers, stops and a shutdown, and accounts for every exit: it is published exactly if the child was not being retired, and the daemon not shutting down, when its watcher ran. The invariant speaks about one session at a time, and says for each place where an operation can be suspended what is true of that session.

**The forge broker's streams** (`bytes`, `redactor`, `chunked`). The streaming redactor is proved equal to the one-shot scrub for every split into chunks, and the body decoder undoes the chunked transfer coding of section 7.1 of RFC 9112, with sizes written in either case and with leading zeros, and refuses every proper prefix of an encoding.

**Attachments** (`paths`, `handoff_plan`, `handoff_install`). The planner accepts exactly the acceptable selections, the classifier reports exactly the destinations that are not free, and both verdicts together guarantee an installation that leaves everything else alone (`HandoffInstall.LaunchWithAttachments`). Neither the order of the bundles nor that of the files in them matters. Whenever an installation reports success, every file is in place with its bytes.

**Workflow compositions** (`composition_template`, `composition`). Templates are expanded under a budget, stages are checked, snapshots are frozen, and a retained document is verified again from its frozen snapshots. How a primitive step is parsed and written is a parameter, about which three things are assumed: reading what was written gives the step back, a step keeps its name, and writing drops nothing that was read, so that a step's canonical form is no smaller than what it was parsed from. Of a document's own bounds it is assumed that they hold for the steps it lists. An accepted document keeps every binding its author gave, and gets the declared defaults only for what was left out (`Composition.CompileDefinition`). With those assumptions, what compiles is accepted again from its frozen snapshots alone (`Composition.FrozenIsEnough`).

**Smaller cores.** The crash-safe carry-forward of operator state (`datadir`), the teardown of a container's processes under reuse of process ids (`processes`), the parser of gpg's records (`gpg`), the aggregation of attention (`notifications`), and the migrations of launch documents between versions 1 and 4 (`migrations`).

## What the code does not promise

These are results about the code, each with a lemma or an exact condition.

- `reconcile` raises, and the row stays running, exactly when something pending and staged now has a directory at its destination: opening it succeeds and reading it does not (`ExportManager.Reconcile`, with `Stuck` as the condition). Others get there by making a directory at the destination of a staged file (`ExportLimits.DirectoryGetsStuck`).
- `recheck` may find that an export must become unresolved again and be refused by the index on active roots, exactly when another export has taken the root meanwhile (`ExportRegistry.WriteKeeps`, `ExportRegistry.RecheckCanBeRefused`). The description of `recheck` says that an outcome can only move from unknown to something established; the code also moves pending outcomes, and may find them unknown, which is how this comes about.
- `plan_selection` and `plan_destinations` give distinct and separate destinations only for manifest paths that are in their normal form, which those that the capture writes are. For other paths, two selected files share a destination exactly if they are equal once stripped, on the right only when there is a prefix (`ExportPreview.DestinationsCollide`, with `ExportPreview.CanonicalIsNeeded` as an example), and a file under another's destination is accepted exactly if its own path starts with a space (`HandoffPlan.MissedExactly`, with `HandoffPlan.StrippedAncestorMissed` as an example).
- Expansion checks its byte counter only on entering a node, so a finished expansion keeps the node and depth bounds but may exceed the byte bound (`StepTemplates.AcceptedTemplateExpands`); a single long string does (`StepTemplates.BytesAreNotBounded`).
- The record of processes remembers only the last removed container. A removal that comes late, because it read its container's id before another was launched and removed (local-test/fakes/workshop:319-344), reopens the other one, and a process can be registered for it again (`ContainerProcesses.LateRemovalReopens`). A container that was removed stays closed through another removal exactly if it is the one removed, or its entry is gone (`ContainerProcesses.Registry.RemoveProcesses`).
- A start for a session whose child has died is refused until that child's exit watcher has run (`AgentSupervision.AgentSupervisor.Enter`).
- When the copy of the database fails, the already staged copy of its write-ahead log is not among the files that carry-forward discards (`DataDirectory.Destination.StageAll`); the next start overwrites it.
- Settled outcomes are revised when passes over one export cross. Two rechecks that read the same uncertain file can turn `created` into `not installed` (`ExportClients.TwoRechecksRevise`). Shutting down cancels an installation, whose thread goes on while the export is settled: `not installed` is then overwritten by `created` (`ExportClients.InstallationOutlivesItsCancel`), or the settlement, which looked before the move, overwrites `created` by `not installed` (`ExportClients.SettlementComesLate`) and so denies a file that was moved (`ExportLimits.SettlementDeniesAMove`; exactly when, `ExportLimits.DenialLimit`). Exactly when a write revises something is `ExportRegistry.ConclusionLimit`; it never does if nobody else wrote in between (`ExportRegistry.AloneRevisesNothing`).
- The state that a pass writes is computed from the record it read. With three rechecks an export is `completed` although one of its files is recorded as not installed (`ExportClients.CompletedWithoutAFile`); exactly when the state fits the outcomes is `ExportRegistry.ConclusionState`.
- An export trusts that nobody gives its staging directory, or a file waiting in it, another name. A staged file that is linked to its destination, or whose staging directory is renamed onto the way there, is reported as created although this export never moved it (`ExportLimits.LinkedFileMisleads`, `ExportLimits.RenamedStagingMisleads`). A turn of others that writes nothing inside the staging directory keeps the invariant exactly if it adds no such name (`ExportSafety.HonestyLimit`); that is a condition on the invariant, and these two lemmas are what shows that losing it misleads.
- Cleaning up is by name. The staging directory's identity is compared before it is emptied, and not again before it is removed: an empty directory that others put under its name meanwhile is removed in its place (`ExportLimits.SubstituteIsRemoved`). And what is opened for staging is whatever the staging name leads to after the directory was made: a directory of others put there meanwhile is adopted, and emptied in the end (`ExportLimits.AdoptedIsEmptied`). Removing the name is create-only exactly if it leads to the staging directory this export made, and unlinking an entry exactly if this export made it (`ExportSafety.RmdirLimit`, `ExportSafety.UnlinkLimit`, `ExportSafety.StepLimit`).
- A session being started when the daemon begins to shut down is not among the children that are terminated (`AgentSupervision.AgentSupervisor.Shutdown` speaks of those registered at that moment).
- The migrations up and down again raise exactly for the tables that hold a document which `LaunchMigrations.Convertible` shuts out (`LaunchMigrations.Database.ThereAndBack`). Among them is a version-1 document whose judge role is not in its role map, but only if the task has a judge session to resume (`LaunchMigrations.StrayJudgeRole`).
- Reconciliation reports a missing destination as not installed (`ExportManager.Established`). That is a statement about the checkout as it is, and says nothing of a file that was moved there and deleted since.
- The directories an export makes are remembered by path. `ExportHost.RightPlace` therefore speaks of the directory's identity only where the preview saw one.

## Model

| member | source | states |
|---|---|---|
| `Filesystem.RenameNames` | daemon/src/ompire_daemon/result_exports.py:204-238 | a non-replacing rename binds the new name and drops the old one, changes no other name and no inode |
| `Filesystem.AddNodeNames` | daemon/src/ompire_daemon/result_exports.py:1184-1244 | exclusive creation adds exactly one name, for an inode number never used before |
| `ExportJournal.SeqNamesDiffer` | daemon/src/ompire_daemon/result_exports.py:1184-1244 | the zero-padded sequence number under which a file is staged belongs to that file only |
| `ExportJournal.ClassifyExact` | daemon/src/ompire_daemon/result_exports.py:1625-1642 | the computed state is completed exactly if all outcomes are created or identical, unresolved exactly if one is unknown |
| `ExportSafety.OthersKeepSafe` | daemon/src/ompire_daemon/result_exports.py:1076-1124 | whatever others do in one turn keeps the export's invariant: anything outside the staging directory, except giving it or a file in it another name; deleting it and reusing its name included |
| `ExportSafety.HonestyLimit` | daemon/src/ompire_daemon/result_exports.py:1547-1604 | and this is the limit: a turn that writes nothing inside staging keeps the invariant exactly if it makes neither the staging directory nor a file waiting in it findable under another name |
| `ExportSafety.StepLimit` | daemon/src/ompire_daemon/result_exports.py:1143-1478 | a step of the export is create-only exactly if it neither unlinks what it did not make nor removes a directory that is not its own |
| `ExportSafety.RmdirLimit` | daemon/src/ompire_daemon/result_exports.py:1446-1478 | removing the directory under the staging name is create-only exactly if that is the staging directory and this export made it |
| `ExportSafety.UnlinkLimit` | daemon/src/ompire_daemon/result_exports.py:1446-1478 | unlinking an entry is create-only exactly if this export made what it leads to |
| `ExportSafety.MakeStagingSafe` | daemon/src/ompire_daemon/result_exports.py:1143-1164 | making the staging directory is create-only and keeps the invariant |
| `ExportSafety.OpenStagingSafe` | daemon/src/ompire_daemon/result_exports.py:1143-1164 | what the staging name leads to is then opened, and the invariant about a staging directory holds of it, whoever made it |
| `ExportSafety.AddSafe` | daemon/src/ompire_daemon/result_exports.py:1305-1387 | a fresh file in staging, or a fresh directory on the way to a destination, is create-only and keeps the invariant |
| `ExportSafety.WriteSafe` | daemon/src/ompire_daemon/result_exports.py:1184-1244 | writing a file of one's own that is not journalled yet is create-only and keeps the invariant |
| `ExportSafety.MoveSafe` | daemon/src/ompire_daemon/result_exports.py:1246-1303 | moving a staged file is create-only; from then on, and not before, the export may claim it |
| `ExportSafety.UnlinkInStagingSafe` | daemon/src/ompire_daemon/result_exports.py:1446-1478 | removing a name from the staging directory keeps the invariant, and touches nothing that others made exactly if the name leads to something of this export's own |
| `ExportSafety.RemoveStagingSafe` | daemon/src/ompire_daemon/result_exports.py:1446-1478 | removing the empty directory under the staging name keeps the invariant, and is create-only exactly if that name still leads to the directory this export made |
| `ExportSafety.JournalStagedSafe` | daemon/src/ompire_daemon/registry/result_exports.py:644-660 | an inode may be journalled as staged once it waits under its sequence name, and nowhere else, with the approved bytes |
| `ExportSafety.JournalOutcomeSafe` | daemon/src/ompire_daemon/registry/result_exports.py:663-686 | an outcome may be journalled if `created` is journalled only for a file this export moved |
| `ExportSafety.FoundMeansMoved` | daemon/src/ompire_daemon/result_exports.py:1547-1604 | a staged inode found under any name outside staging was moved there by this export, as long as the invariant holds |
| `ExportHost.PossibleMeans` | daemon/src/ompire_daemon/result_exports.py:1076-1124 | the checkable form of what others may do implies the one the proofs use |
| `ExportHost.AllowedIsPossible` | daemon/src/ompire_daemon/result_exports.py:1076-1124 | and leaves nothing out: every change others may make occurs in some schedule |
| `ExportHost.WaitingKept` | daemon/src/ompire_daemon/result_exports.py:1184-1244 | a staged file that is not journalled yet survives whatever others do, or is deleted, but is never altered |
| `ExportHost.Host.constructor` | daemon/src/ompire_daemon/result_exports.py:1031-1036 | a daemon about to work on an admitted row that was not started |
| `ExportHost.Host.NextTurn` | daemon/src/ompire_daemon/result_exports.py:1031-1053 | before every call others may act, the call may fail, or the daemon may die; a dead daemon's calls have no effect |
| `ExportHost.Host.MakeStaging` | daemon/src/ompire_daemon/result_exports.py:1143-1164 | keeps the invariant under any schedule; undisturbed it makes exactly a directory under the staging name |
| `ExportHost.Host.OpenStaging` | daemon/src/ompire_daemon/result_exports.py:1143-1164 | opens whatever the staging name leads to, and keeps the invariant; undisturbed that is the directory just made |
| `ExportHost.Host.MakeDirectory` | daemon/src/ompire_daemon/result_exports.py:1323-1353 | keeps the invariant; undisturbed it makes exactly that directory or reports why not |
| `ExportHost.Host.CreateStaged` | daemon/src/ompire_daemon/result_exports.py:1184-1244 | a file created in staging waits there, empty, under its own name only |
| `ExportHost.Host.WriteStaged` | daemon/src/ompire_daemon/result_exports.py:1184-1244 | and then holds what was written |
| `ExportHost.Host.MoveIntoPlace` | daemon/src/ompire_daemon/result_exports.py:1246-1303 | a staged file may go only into the directory that was approved, if the preview saw one; the history records a move exactly if the rename happened |
| `ExportHost.Host.MoveProbe` | daemon/src/ompire_daemon/result_exports.py:1166-1182 | the probe never moves a staged file; it fails on a host without the non-replacing rename |
| `ExportHost.Host.UnlinkStaged` | daemon/src/ompire_daemon/result_exports.py:1446-1478 | keeps the invariant; undisturbed it removes exactly that name |
| `ExportHost.Host.RemoveStaging` | daemon/src/ompire_daemon/result_exports.py:1446-1478 | keeps the invariant whatever the staging name leads to by then; undisturbed it removes the directory exactly if it is empty |
| `ExportHost.Host.ReopenRoot` | daemon/src/ompire_daemon/result_exports.py:1126-1141 | succeeds only on the approved directory itself |
| `ExportHost.Host.OpenChild` | daemon/src/ompire_daemon/result_exports.py:383-408 | an ordinary name never leads into the staging directory; a component reported missing was missing at a moment on the way |
| `ExportHost.Host.OpenEntry` | daemon/src/ompire_daemon/result_exports.py:1565-1591 | what was opened is what the name led to at that moment, and the bytes read are its bytes |
| `ExportHost.Host.RecordStaged` | daemon/src/ompire_daemon/registry/result_exports.py:644-660 | the journal names a staged inode only if it waits with the approved bytes |
| `ExportHost.Host.RecordOutcome` | daemon/src/ompire_daemon/registry/result_exports.py:663-686 | `created` is journalled only for a file this export moved |
| `ExportHost.Host.RecordReconciliation` | daemon/src/ompire_daemon/registry/result_exports.py:760-805 | the same for a whole set of outcomes and the state, in one write |
| `ExportHost.Host.WriteRow` | daemon/src/ompire_daemon/registry/result_exports.py:625-641 | other journal columns change by one write or not at all, and the approval never does |
| `ExportHost.Host.FoundIsMoved` | daemon/src/ompire_daemon/result_exports.py:1596-1604 | seeing the staged inode at a destination proves that this export moved it |
| `ExportHost.Host.Meaning` | daemon/src/ompire_daemon/result_exports.py:1076-1124 | the invariant in plain terms: created implies moved, with the approved bytes, name and place; never staged implies never moved; every step was create-only exactly unless it took an entry or a directory of others |
| `ExportManager.ProbeSafeInstall` | daemon/src/ompire_daemon/result_exports.py:1166-1182 | a host without the non-replacing rename is refused before any destination is touched; undisturbed the probe leaves nothing behind |
| `ExportManager.StageOne` | daemon/src/ompire_daemon/result_exports.py:1184-1244 | success means the file is journalled as staged; one row changes at most |
| `ExportManager.FillStaged` | daemon/src/ompire_daemon/result_exports.py:1184-1244 | a file that does not read back as approved is refused and not journalled |
| `ExportManager.Stage` | daemon/src/ompire_daemon/result_exports.py:1184-1244 | only files to be created are staged, and all of them before any is installed |
| `ExportManager.CreateOrEnter` | daemon/src/ompire_daemon/result_exports.py:1323-1385 | a component is entered only if it is the inode the preview saw, or was absent and has been made by this export; a path is remembered as made only if a directory was made |
| `ExportManager.EnteredAll` | daemon/src/ompire_daemon/result_exports.py:1355-1385 | a parent reached in that way is the right place for the file |
| `ExportManager.DescendCreating` | daemon/src/ompire_daemon/result_exports.py:1305-1387 | every ancestor passed was approved or made by this export, and the parent reached is the approved one; undisturbed it makes exactly the missing ancestors |
| `ExportManager.InstallOne` | daemon/src/ompire_daemon/result_exports.py:1246-1303 | one outcome is journalled; `not installed` only if nothing was moved; undisturbed the file arrives |
| `ExportManager.MoveOne` | daemon/src/ompire_daemon/result_exports.py:1246-1303 | in an unchanging checkout: created exactly if the rename succeeds, not installed exactly if something is at the destination, an error otherwise with nothing journalled |
| `ExportManager.MovedOpens` | daemon/src/ompire_daemon/result_exports.py:1246-1303 | what was moved can be opened where it was moved to |
| `ExportManager.Descend` | daemon/src/ompire_daemon/result_exports.py:1558-1564 | reports a missing ancestor only if one is missing, at a moment on the way, and never enters the staging directory |
| `ExportManager.DescendWalks` | daemon/src/ompire_daemon/result_exports.py:1558-1564 | the descent arrives where the path leads |
| `ExportManager.VerifyIdentical` | daemon/src/ompire_daemon/result_exports.py:1389-1444 | writes nothing to the checkout; in an unchanging one the verdict is identical exactly if an ordinary file with the approved bytes is there |
| `ExportManager.EmptyStaging` | daemon/src/ompire_daemon/result_exports.py:1463-1464 | left to itself it unlinks every staged copy, and no other directory changes |
| `ExportManager.CleanStaging` | daemon/src/ompire_daemon/result_exports.py:1446-1478 | if the staging name no longer leads to this export's directory nothing is touched and that is reported; otherwise it is emptied, and what its name leads to then is removed; left to itself over staged copies of its own it unlinks every one and removes the directory, and no other name changes |
| `ExportManager.FinishExport` | daemon/src/ompire_daemon/registry/result_exports.py:706-757 | the claimed state is corrected by the recorded outcomes and by leftover staging |
| `ExportManager.DeliverOne` | daemon/src/ompire_daemon/result_exports.py:1092-1105 | one turn of the loop: at most one move and one outcome |
| `ExportManager.InstallFiles` | daemon/src/ompire_daemon/result_exports.py:1092-1105 | the loop stops at the first file not delivered and leaves the rest pending; complete exactly if all were delivered; no moved file is denied |
| `ExportManager.StageAndInstall` | daemon/src/ompire_daemon/result_exports.py:1088-1105 | without the non-replacing rename nothing is moved; undisturbed everything staged is moved |
| `ExportManager.CreateStaging` | daemon/src/ompire_daemon/result_exports.py:1143-1164 | the staging identity is journalled before anything is staged, and is that of the directory the staging name led to when it was opened |
| `ExportManager.CleanUp` | daemon/src/ompire_daemon/result_exports.py:1106-1111 | the directories made are journalled, and the staging directory goes |
| `ExportManager.SettledAs` | daemon/src/ompire_daemon/registry/result_exports.py:706-757 | a run settles as unresolved exactly if an outcome is unknown or nobody could say what happened, and as completed only if everything was delivered |
| `ExportManager.StageInstallAndSettle` | daemon/src/ompire_daemon/result_exports.py:1088-1124 | completed is recorded only if everything was delivered |
| `ExportManager.Install` | daemon/src/ompire_daemon/result_exports.py:1076-1124 | the approval is never altered; completed only if everything was delivered; a checkout that is gone is refused with the record untouched; undisturbed the tree is as approved |
| `ExportManager.RunExport` | daemon/src/ompire_daemon/result_exports.py:1031-1055 | whatever everybody else does to the checkout, and wherever the daemon dies, no moved file is denied; left to itself it always settles: as completed only if everything was delivered, as incomplete after a refusal, as unresolved after an unexpected failure or an unknown outcome; still as previewed it ends completed with exactly the approved tree |
| `ExportManager.Settle` | daemon/src/ompire_daemon/result_exports.py:1043-1052 | a refusal settles as incomplete and an unexpected failure as unresolved |
| `ExportManager.ObserveEffect` | daemon/src/ompire_daemon/result_exports.py:1547-1623 | created only for a file this export moved, never for one not staged; not installed, of a staged file, only if its destination was missing at a moment of the look; in an unchanging checkout created, not installed and unknown each exactly when they should be |
| `ExportManager.EstablishedMeans` | daemon/src/ompire_daemon/result_exports.py:1547-1623 | what was established agrees with where the destination leads |
| `ExportManager.ObserveAll` | daemon/src/ompire_daemon/result_exports.py:1528-1532 | every file asked about gets its outcome, or the pass raises and nothing is recorded; a staged file is reported as not installed only if its destination was looked at and missing |
| `ExportManager.LookAgain` | daemon/src/ompire_daemon/result_exports.py:1505-1532 | with the checkout gone every staged file is reported as unknown and every other one as not installed; in any case a staged file is reported as not installed only if its destination was looked at and missing |
| `ExportManager.Reconcile` | daemon/src/ompire_daemon/result_exports.py:1488-1545 | settled outcomes stay, nothing stays pending, the state is the one the outcomes imply; with the checkout there it raises exactly when a pending staged destination is a directory; with the checkout gone it succeeds, pending files become unknown if they were staged and not installed if they were not, and the export is unresolved if one was; whatever others do, a staged file is recorded as not installed only if its destination was seen to be missing during the pass |
| `ExportManager.Recheck` | daemon/src/ompire_daemon/result_exports.py:1644-1685 | only uncertain outcomes move; with the checkout there and nobody interfering it succeeds exactly if something is uncertain, the export is unresolved or incomplete, and no uncertain destination is a directory; with the checkout gone it is refused; a staged file becomes not installed only if its destination was seen to be missing during the pass |
| `ExportManager.Acknowledge` | daemon/src/ompire_daemon/registry/result_exports.py:808-848 | closes an unresolved export as incomplete without touching an outcome, and exactly an unresolved one if nobody interferes |
| `ExportManager.Lifetime` | daemon/src/ompire_daemon/result_exports.py:1076-1303 | the safety theorem over a run cut anywhere and any number of recovery passes, with others acting before every call: created implies moved as approved, never staged implies never moved, and every step is create-only exactly unless it takes an entry or a directory of others |
| `ExportLimits.LinkedFileMisleads` | daemon/src/ompire_daemon/result_exports.py:1558-1604 | a hard link from a staged file to its destination makes an unmoved file look created |
| `ExportLimits.RenamedStagingMisleads` | daemon/src/ompire_daemon/result_exports.py:1558-1604 | renaming the staging directory onto the way to a destination makes an unmoved file look created |
| `ExportLimits.SubstituteIsRemoved` | daemon/src/ompire_daemon/result_exports.py:1446-1478 | an empty directory that others put under the staging name just before it is removed is removed in its place |
| `ExportLimits.AdoptedIsEmptied` | daemon/src/ompire_daemon/result_exports.py:1143-1164 | a directory that others put under the staging name before it is opened is adopted, and what is in it is unlinked in the end |
| `ExportLimits.DirectoryGetsStuck` | daemon/src/ompire_daemon/result_exports.py:1565-1591 | others can make a re-observation raise, by a directory at the destination of a staged file |
| `ExportLimits.DenialLimit` | daemon/src/ompire_daemon/result_exports.py:744-757 | a late report denies a moved file exactly if it says not installed of one that has been moved by then |
| `ExportLimits.SettlementDeniesAMove` | daemon/src/ompire_daemon/result_exports.py:744-757 | a settlement that looks before the move and writes after it does so, with nothing false claimed as created |
| `ExportTree.WalkAfter` | daemon/src/ompire_daemon/result_exports.py:1246-1303 | adding one entry changes where exactly one path leads |
| `ExportTree.LaidAfter` | daemon/src/ompire_daemon/result_exports.py:1076-1124 | a step that adds one planned path keeps the tree as planned |
| `ExportTree.DirectoryMade` | daemon/src/ompire_daemon/result_exports.py:1323-1353 | making a missing ancestor extends the planned tree by that directory only |
| `ExportTree.FileMoved` | daemon/src/ompire_daemon/result_exports.py:1246-1303 | a staged file's arrival extends the planned tree by that file only, with its bytes |
| `ExportCourse.CourseMove` | daemon/src/ompire_daemon/result_exports.py:1246-1303 | undisturbed, moving a staged file keeps the run on course |
| `ExportCourse.CourseEnds` | daemon/src/ompire_daemon/result_exports.py:1446-1478 | with every staged file moved, staging is empty, can be removed, and every path leads where it should |
| `ExportCourse.LaidIsComplete` | daemon/src/ompire_daemon/result_exports.py:1076-1124 | the planned tree is the old tree, the approved files and exactly the missing ancestors |
| `ExportPreview.NormalizePrefix` | daemon/src/ompire_daemon/result_exports.py:244-266 | an accepted prefix is empty or in normal form |
| `ExportPreview.PrefixExact` | daemon/src/ompire_daemon/result_exports.py:244-266 | a prefix is read as a path in normal form exactly if it is that path with spaces around it, slashes behind it and spaces again, and as the root exactly if it is blank; everything else is refused |
| `ExportPreview.PlanSelection` | daemon/src/ompire_daemon/result_exports.py:269-339 | accepts exactly the selections that are non-empty, without repetition, in the manifest, usable and never ancestors of each other, and gives every path its destination: for paths in normal form, the components of the prefix followed by those of the path |
| `ExportPreview.DestinationUnder` | daemon/src/ompire_daemon/result_exports.py:305-323 | a path in normal form has as its destination the components of the prefix and then its own, if they are a usable path, and none otherwise |
| `ExportPreview.SelectableIsAcceptable` | daemon/src/ompire_daemon/result_exports.py:269-339 | for paths in normal form the accepted selections are those whose places under the prefix are usable and none a proper prefix of another |
| `ExportPreview.DestinationsDiffer` | daemon/src/ompire_daemon/result_exports.py:305-323 | under one prefix, different paths in normal form have different destinations |
| `ExportPreview.DestinationsCollide` | daemon/src/ompire_daemon/result_exports.py:305-323 | two usable paths, in normal form or not, share a destination exactly if they are equal once stripped |
| `ExportPreview.SelectionCollides` | daemon/src/ompire_daemon/result_exports.py:269-339 | an accepted selection keeps its files apart exactly if no two of its paths are equal once stripped |
| `ExportPreview.CanonicalIsNeeded` | daemon/src/ompire_daemon/result_exports.py:305-338 | without normal form two selected paths can share a destination |
| `ExportPreview.ObserveAncestors` | daemon/src/ompire_daemon/result_exports.py:431-473 | the ancestors recorded are as recorded; the walk ends at the parent, at something missing, or blocked, each exactly when that is so |
| `ExportPreview.ClassAtMeans` | daemon/src/ompire_daemon/result_exports.py:506-630 | create exactly if the destination is free, identical exactly if an ordinary single-linked file on the root's device holds the approved bytes |
| `ExportPreview.Observe` | daemon/src/ompire_daemon/result_exports.py:411-493 | every destination's class is right both ways, and what is not in conflict is recorded well enough for an installation to follow |
| `ExportRun.SelectionIsPrefixFree` | daemon/src/ompire_daemon/result_exports.py:269-339 | the destinations of an accepted selection are distinct and none is on the way to another |
| `ExportRun.Targets` | daemon/src/ompire_daemon/result_exports.py:305-323 | every selected path with the components of its destination and its retained bytes, in order |
| `ExportRun.ExportUndisturbed` | daemon/src/ompire_daemon/result_exports.py:269-493 | end to end: refused exactly if a place under the prefix is not usable, is on the way to another, or something is in the way there; otherwise completed with exactly the approved tree, every file under the components of the prefix and its path |
| `ExportRegistry.WriteKeeps` | daemon/src/ompire_daemon/db.py:704-717 | a write keeps both unique indexes; for an export that keeps its root it is refused exactly if it turns active while another holds the root |
| `ExportRegistry.RecheckCanBeRefused` | daemon/src/ompire_daemon/db.py:707-717 | an export closed with an unknown outcome cannot become unresolved again after its root was taken |
| `ExportRegistry.ConclusionLimit` | daemon/src/ompire_daemon/registry/result_exports.py:760-805 | a pass's write keeps every settled outcome exactly if no file it reports was settled differently since it read |
| `ExportRegistry.ConclusionState` | daemon/src/ompire_daemon/result_exports.py:1625-1679 | the state it writes is the one the outcomes imply exactly if something is reported unknown, or the other files still look as they did as far as the state depends on them |
| `ExportRegistry.AloneRevisesNothing` | daemon/src/ompire_daemon/result_exports.py:1488-1685 | work on one export that does not overlap revises no settled outcome |
| `ExportRegistry.Registry.Admit` | daemon/src/ompire_daemon/registry/result_exports.py:469-622 | a repeated confirmation is answered with its export, a changed one is refused, a busy root is refused, and otherwise the root is reserved |
| `ExportRegistry.Registry.RecordOutcome` | daemon/src/ompire_daemon/registry/result_exports.py:663-686 | never refused and written whatever the file's outcome is by then; it keeps what is settled exactly if the file was not settled differently |
| `ExportRegistry.Registry.Finish` | daemon/src/ompire_daemon/registry/result_exports.py:706-757 | outcomes stay; completed implies all delivered; an unknown outcome forces unresolved; refused exactly if that turns the export active again while another holds the root |
| `ExportRegistry.Registry.Look` | daemon/src/ompire_daemon/result_exports.py:1488-1666 | the record is read in a transaction of its own, and kept; a recheck begins exactly if the export is unresolved or incomplete and something is uncertain |
| `ExportRegistry.Registry.Conclude` | daemon/src/ompire_daemon/registry/result_exports.py:760-805 | one transaction over whatever is there by then: the reported outcomes, and the state they imply for the record that was read; it keeps what is settled exactly if no reported file was settled differently; refused exactly on a contended root |
| `ExportRegistry.Registry.Commit` | daemon/src/ompire_daemon/registry/result_exports.py:851-868 | one transaction: the row is written as a whole, or refused by the index with nothing changed; the approval stays |
| `ExportRegistry.Registry.Acknowledge` | daemon/src/ompire_daemon/registry/result_exports.py:808-848 | accepted exactly for an unresolved export, which becomes incomplete |
| `ExportRegistry.Registry.Answer` | daemon/src/ompire_daemon/registry/result_exports.py:469-848 | each request is one transaction, and revises a settled outcome exactly if it is a crossing write |
| `ExportRegistry.Registry.Serve` | daemon/src/ompire_daemon/registry/result_exports.py:469-848 | after any requests: one active export to a root, none lost, no approval changed; each request revises a settled outcome exactly if it is a crossing write, and without one none is ever revised |
| `ExportClients.TwoRechecksRevise` | daemon/src/ompire_daemon/result_exports.py:1644-1685 | two rechecks of one file turn created into not installed |
| `ExportClients.InstallationOutlivesItsCancel` | daemon/src/ompire_daemon/result_exports.py:744-757 | the thread of a cancelled installation overwrites the settled not installed by created |
| `ExportClients.SettlementComesLate` | daemon/src/ompire_daemon/result_exports.py:744-757 | a settlement that looked earlier overwrites created by not installed |
| `ExportClients.CompletedWithoutAFile` | daemon/src/ompire_daemon/result_exports.py:1644-1685 | three rechecks leave an export completed with a file recorded as not installed |
| `ExportClients.Inspect` | daemon/src/ompire_daemon/result_exports.py:1499-1532 | a pass looks at the files its record left uncertain, reports as created only what this export moved, and as not installed, of staged files, only what it saw to be missing; with the checkout gone a recheck is refused and a settlement reports every staged file as unknown |
| `ExportClients.WriteDown` | daemon/src/ompire_daemon/registry/result_exports.py:760-805 | its last transaction writes the report over whatever is there, or is refused by the index, or fails |
| `ExportClients.Advance` | daemon/src/ompire_daemon/result_exports.py:1488-1685 | one step of one of several passes over an export keeps the journal and the checkout together; what a pass reports as not installed, of staged files, was seen to be missing on the way |
| `ExportClients.ServeExport` | daemon/src/ompire_daemon/result_exports.py:1488-1685 | any number of passes in any interleaving: created implies moved with the approved bytes, and a step revises a settled outcome exactly if it writes a report of a file settled differently since it was read; no staged file is ever reported as not installed unless its destination was seen to be missing on the way |
| `AgentSupervision.AgentSupervisor.Enter` | daemon/src/ompire_daemon/agent.py:603-672 | at the boundary: acquire answers at once, with exactly the registered handle if its child has not exited and with none otherwise; a start over a registered handle is refused; a handoff to a live child goes in place exactly if the child has the auxiliary roles asked for; a session without a handle gets a start that resumes what the caller asked for |
| `AgentSupervision.AgentSupervisor.Spawned` | daemon/src/ompire_daemon/agent.py:846-856 | a failed spawn raises and leaves the session without a handle; a ready child is known to nobody else |
| `AgentSupervision.AgentSupervisor.Configured` | daemon/src/ompire_daemon/agent.py:863-886 | a child that does not confirm the policy is killed |
| `AgentSupervision.AgentSupervisor.Identified` | daemon/src/ompire_daemon/agent.py:914-929 | a replacement goes on only if it is the same native session, otherwise it is killed |
| `AgentSupervision.AgentSupervisor.FinishStart` | daemon/src/ompire_daemon/agent.py:887-912 | the policy is committed before the child is registered; a failed commit registers nothing |
| `AgentSupervision.AgentSupervisor.Register` | daemon/src/ompire_daemon/agent.py:887-912 | the policy is committed, the child registered and watched, and the boundary left |
| `AgentSupervision.AgentSupervisor.Killed` | daemon/src/ompire_daemon/agent.py:867-900 | a start that failed raises and leaves the session without a handle |
| `AgentSupervision.AgentSupervisor.BoundaryRead` | daemon/src/ompire_daemon/agent.py:674-705 | a busy or silent child keeps its handle and policy untouched |
| `AgentSupervision.AgentSupervisor.Applied` | daemon/src/ompire_daemon/agent.py:696-732 | in place: the new policy is recorded after it was confirmed; any failure retires the child, with its old policy put back after a failed commit |
| `AgentSupervision.AgentSupervisor.GiveUp` | daemon/src/ompire_daemon/agent.py:708-719 | a child on an unknown policy is retired and unregistered before the operation raises |
| `AgentSupervision.AgentSupervisor.Terminated` | daemon/src/ompire_daemon/agent.py:708-730 | the operation then raises and leaves the session without a handle |
| `AgentSupervision.AgentSupervisor.Retire` | daemon/src/ompire_daemon/agent.py:771-783 | marks the child and removes its own registration, and no other |
| `AgentSupervision.AgentSupervisor.IdRead` | daemon/src/ompire_daemon/agent.py:744-750 | a child that does not name its session is left untouched |
| `AgentSupervision.AgentSupervisor.BoundaryReadToReplace` | daemon/src/ompire_daemon/agent.py:751-758 | the old child is retired and unregistered before a replacement exists |
| `AgentSupervision.AgentSupervisor.Replaced` | daemon/src/ompire_daemon/agent.py:758-769 | the replacement resumes the native session of the child it replaces |
| `AgentSupervision.AgentSupervisor.Watch` | daemon/src/ompire_daemon/agent.py:961-981 | only the exited child's own registration goes, and its end is accounted for with the flags it had; it is published unless it was being retired or the daemon is shutting down |
| `AgentSupervision.AgentSupervisor.Exit` | daemon/src/ompire_daemon/agent.py:419-458 | a child may die at any moment; nothing else changes then |
| `AgentSupervision.AgentSupervisor.Stop` | daemon/src/ompire_daemon/agent.py:931-935 | kills the registered child and leaves the rest to its watcher |
| `AgentSupervision.AgentSupervisor.Shutdown` | daemon/src/ompire_daemon/agent.py:937-959 | whatever happens while it waits, nothing is published, and in the end no child that was registered when it began still runs |
| `AgentSupervision.AgentSupervisor.BeginShutdown` | daemon/src/ompire_daemon/agent.py:937-949 | the flag is set before anything is awaited, and exactly the registered children are to be terminated |
| `AgentSupervision.AgentSupervisor.TerminateAll` | daemon/src/ompire_daemon/agent.py:946-959 | every one of them has exited in the end, and nothing else differs about any child |
| `AgentSupervision.AgentSupervisor.Proceed` | daemon/src/ompire_daemon/agent.py:696-912 | every answer moves a suspended operation on, keeps the invariant, and forgets no child and nothing that is final about one |
| `AgentSupervision.AgentSupervisor.Happen` | daemon/src/ompire_daemon/agent.py:558-981 | each event keeps the invariant and the account of exits |
| `AgentSupervision.AgentSupervisor.Run` | daemon/src/ompire_daemon/agent.py:558-981 | after any schedule every operation ended well: a returned handle is not retiring, verified on the policy asked for, which is the one committed last; acquire returned a child that had not exited, or there was none; a child that was started fresh was told to resume what the caller asked for, and a replacement its predecessor's native session, which happens only to change auxiliary roles; a failure left the old handle untouched or none. An exit is published exactly if its child was not being retired, and the daemon not shutting down, when its watcher ran, once, and never for a child retired or a daemon shutting down before; a watched child stays watched until its end is accounted for |
| `AgentSupervision.HandlesByKey` | daemon/src/ompire_daemon/agent.py:771-783 | one handle to a session, never a retiring child, and no child registered twice |
| `AgentSupervision.StartEnds` | daemon/src/ompire_daemon/agent.py:887-912 | a start that ends keeps the invariant and ends well |
| `AgentSupervision.ApplyEnds` | daemon/src/ompire_daemon/agent.py:720-732 | a reconfiguration that ends keeps the invariant and ends well |
| `AgentSupervision.ApplyUndone` | daemon/src/ompire_daemon/agent.py:722-730 | a reconfiguration that could not be recorded keeps the invariant |
| `AgentSupervision.WatchKeeps` | daemon/src/ompire_daemon/agent.py:961-981 | a late exit of a replaced child never unregisters its replacement |
| `AgentSupervision.OtherKeys` | daemon/src/ompire_daemon/agent.py:589-601 | a step inside one session's boundary leaves every other session's invariant alone |
| `Redaction.ForToken` | daemon/src/ompire_daemon/forge_broker.py:99-110 | both spellings of a token are secrets, and the encoded one is the longer |
| `Redaction.LongerReads` | daemon/src/ompire_daemon/forge_broker.py:99-110 | the longer secret reads back, in base64, as the user name and the token |
| `Bytes.Base64Reads` | daemon/src/ompire_daemon/forge_broker.py:99-110 | what is written in base64, with its literal alphabet, reads back |
| `Redaction.ScrubLeftmost` | daemon/src/ompire_daemon/forge_broker.py:109-110 | the first secret is replaced, the longest one that starts there, and scrubbing goes on right after it |
| `Redaction.ScrubClean` | daemon/src/ompire_daemon/forge_broker.py:109-110 | text without a secret is returned as it is |
| `Redaction.CutCommutes` | daemon/src/ompire_daemon/forge_broker.py:117-131 | cutting at the safe boundary commutes with scrubbing, whatever follows |
| `Redaction.SafeEnd` | daemon/src/ompire_daemon/forge_broker.py:119-129 | the loop over matches finds exactly that boundary |
| `Redaction.Stream` | daemon/src/ompire_daemon/forge_broker.py:117-131 | for every split into chunks the concatenated output is the scrub of the concatenated input |
| `RequestBody.DecodeEncode` | daemon/src/ompire_daemon/forge_broker.py:273-307 | a body whose chunk sizes are written in hexadecimal, in either case and with any leading zeros, decodes to exactly its payload and consumes exactly its encoding, whatever follows |
| `RequestBody.PrefixRejected` | daemon/src/ompire_daemon/forge_broker.py:273-307 | every proper prefix of an encoding is rejected |
| `RequestBody.SizeOfLine` | daemon/src/ompire_daemon/forge_broker.py:284-292 | a size line with white space and extensions announces the length of its data |
| `RequestBody.SizeLineExact` | daemon/src/ompire_daemon/forge_broker.py:284-292 | a size line is read as a number exactly if it is a text of hexadecimal digits that writes this number, with white space around it and anything after a semicolon |
| `RequestBody.HexExact` | daemon/src/ompire_daemon/forge_broker.py:287-292 | a text is read as the number it writes by division and remainder over the literal digits, and as none if it writes none |
| `RequestBody.EverySizeIsRead` | daemon/src/ompire_daemon/forge_broker.py:284-292 | every size whose line fits is read, in either case and with leading zeros |
| `RequestBody.TrailersRead` | daemon/src/ompire_daemon/forge_broker.py:293-299 | a valid trailer section is read to its end and no further |
| `RequestBody.Connection.Body` | daemon/src/ompire_daemon/forge_broker.py:273-307 | both framings: what is passed on and what is accepted is as the decoder says, in pieces within the limit |
| `RequestBody.Connection.ChunkedBody` | daemon/src/ompire_daemon/forge_broker.py:283-307 | the chunk loop agrees with the decoder on what is passed on, what is accepted, and where it stops |
| `RequestBody.Connection.Relay` | daemon/src/ompire_daemon/forge_broker.py:273-282 | a length is passed on exactly, or whatever there was is passed on and the body is refused |
| `RequestBody.Connection.SkipTrailers` | daemon/src/ompire_daemon/forge_broker.py:294-299 | accepts exactly a well-formed trailer section, and stops right after it |
| `Paths.ValidateExact` | daemon/src/ompire_daemon/registry/results.py:307-352 | accepts exactly the texts whose stripped form is canonical, and returns that form |
| `Paths.StripExact` | daemon/src/ompire_daemon/registry/results.py:316-320 | stripping leaves exactly the text between the spaces at both ends |
| `Paths.AncestorsArePrefixes` | daemon/src/ompire_daemon/result_exports.py:342-344 | the ancestors of a path are exactly the proper prefixes of its components |
| `Paths.AncestorsGiven` | daemon/src/ompire_daemon/handoff.py:104-175 | the directories of a path as given and as validated are the same, unless it starts with a space, and then none of them is a validated path |
| `Paths.SplitInjective` | daemon/src/ompire_daemon/result_exports.py:342-344 | different texts have different components |
| `Paths.SplitBoth` | daemon/src/ompire_daemon/result_exports.py:305-323 | a slash between two texts joins their components |
| `HandoffPlan.PlanDestinations` | daemon/src/ompire_daemon/handoff.py:110-191 | accepts exactly the acceptable selections, with the right paths, count and total |
| `HandoffPlan.CheckRevisions` | daemon/src/ompire_daemon/handoff.py:124-136 | accepts exactly distinct, non-empty bundles |
| `HandoffPlan.GatherBundle` | daemon/src/ompire_daemon/handoff.py:142-162 | a bundle is refused exactly if no selection with these files can be separate |
| `HandoffPlan.GatherDirectories` | daemon/src/ompire_daemon/handoff.py:163-165 | gathers exactly the directories that the paths ask for |
| `HandoffPlan.OrderIndependent` | daemon/src/ompire_daemon/handoff.py:110-191 | selections with the same bundles, in any order and with their files in any order, get the same verdict, files, count and total |
| `HandoffPlan.PermutedBundles` | daemon/src/ompire_daemon/handoff.py:110-191 | which covers every rearrangement of the bundles |
| `HandoffPlan.PermutedFiles` | daemon/src/ompire_daemon/handoff.py:110-191 | and every rearrangement of the files of one |
| `HandoffPlan.CanonicalCompatible` | daemon/src/ompire_daemon/handoff.py:104-175 | for paths in normal form no destination is an ancestor of another |
| `HandoffPlan.MissedExactly` | daemon/src/ompire_daemon/handoff.py:142-175 | for any paths the planner lets through a file under another's destination exactly if its own path starts with a space |
| `HandoffPlan.StrippedAncestorMissed` | daemon/src/ompire_daemon/handoff.py:142-175 | for other paths a file and its own ancestor can both be accepted |
| `HandoffPlan.FirstObstacle` | daemon/src/ompire_daemon/handoff.py:222-292 | reports nothing exactly if the destination is free, otherwise an obstacle that is there |
| `HandoffPlan.ClassifyTargetEntries` | daemon/src/ompire_daemon/handoff.py:222-292 | a justified refusal for exactly the destinations that are not free |
| `HandoffPlan.ObservationPaths` | daemon/src/ompire_daemon/handoff.py:295-301 | asks about every destination and every ancestor |
| `HandoffPlan.PayloadKeysDiffer` | daemon/src/ompire_daemon/handoff.py:438-444 | different files have different payload keys |
| `HandoffInstall.Workspace.Descend` | daemon/src/ompire_daemon/handoff.py:404-435 | touches nothing that was there; with room for the file it makes exactly the missing ancestors |
| `HandoffInstall.Workspace.InstallOne` | daemon/src/ompire_daemon/handoff.py:483-523 | never replaces anything; with room for the file it succeeds and adds it |
| `HandoffInstall.Workspace.VerifyOne` | daemon/src/ompire_daemon/handoff.py:526-571 | succeeds only if the path leads to a file with the accepted bytes |
| `HandoffInstall.VerifyInstalled` | daemon/src/ompire_daemon/handoff.py:526-571 | succeeds only if that is so of every file |
| `HandoffInstall.InstallBundle` | daemon/src/ompire_daemon/handoff.py:472-478 | the files of one bundle arrive, each under its own path |
| `HandoffInstall.InstallAttachments` | daemon/src/ompire_daemon/handoff.py:447-480 | nothing that was there is touched; success means every file is in place with its bytes; room for all means success with exactly the accepted tree |
| `HandoffInstall.AcceptanceIsEnough` | daemon/src/ompire_daemon/handoff.py:110-301 | an accepted plan and a silent classification guarantee room for all |
| `HandoffInstall.LaunchWithAttachments` | daemon/src/ompire_daemon/handoff.py:110-480 | accepted exactly if the selection is acceptable and every destination free in the reading of the target; refused, nothing is written; accepted and still as reviewed, it installs every file and the missing directories, and nothing else |
| `HandoffInstall.FileCreated` | daemon/src/ompire_daemon/handoff.py:483-523 | creating and writing a file extends the tree by that file only |
| `StepTemplates.ChargeExact` | daemon/src/ompire_daemon/workflow_composition.py:152-179 | a finished copy counted each node of its result once; a refused one would have exceeded a bound |
| `StepTemplates.NeverUnbound` | daemon/src/ompire_daemon/workflow_composition.py:55-69 | an accepted template with arguments of the declared types never lacks a lookup |
| `StepTemplates.TemplateExact` | daemon/src/ompire_daemon/workflow_composition.py:55-73 | a template is accepted exactly if every placeholder in it names a declared parameter, and every spread stands in an array and names an array |
| `StepTemplates.KindsExact` | daemon/src/ompire_daemon/workflow_composition.py:44-52 | every value but null is of one kind and of no other, but for integers, which are numbers too |
| `StepTemplates.SpreadSpliced` | daemon/src/ompire_daemon/workflow_composition.py:168-173 | the elements of an array argument take the place of its spread, in order |
| `StepTemplates.PlaceholderReplaced` | daemon/src/ompire_daemon/workflow_composition.py:155-156 | an argument takes the place of its placeholder as it is |
| `StepTemplates.ClosedStays` | daemon/src/ompire_daemon/workflow_composition.py:149-180 | a value without placeholders is left as it is |
| `StepTemplates.AcceptedTemplateExpands` | daemon/src/ompire_daemon/workflow_composition.py:152-179 | it expands to exactly the simultaneous substitution, within the node and depth bounds, or is refused for exceeding a bound |
| `StepTemplates.BytesAreNotBounded` | daemon/src/ompire_daemon/workflow_composition.py:152-179 | a finished expansion can exceed the byte bound |
| `StepTemplates.TextCovers` | daemon/src/ompire_daemon/workflow_composition.py:152-179 | what the counter charges for a value is covered by its JSON text and one separator |
| `StepTemplates.OnlyParametersMatter` | daemon/src/ompire_daemon/workflow_composition.py:55-69 | the expansion depends on the declared parameters' arguments only |
| `StepTemplates.Expansion.Copy` | daemon/src/ompire_daemon/workflow_composition.py:152-179 | the copying recursion with its counters returns that expansion, or stops where the budget does |
| `StepTemplates.Expansion.CopyItems` | daemon/src/ompire_daemon/workflow_composition.py:167-176 | a spread puts the elements of its argument in its place, in order |
| `Composition.CheckStage` | daemon/src/ompire_daemon/workflow_composition.py:190-211 | accepts exactly a well-formed stage whose members nobody claimed |
| `Composition.CheckStages` | daemon/src/ompire_daemon/workflow_composition.py:182-217 | accepts exactly the ordered partitions of the execution steps |
| `Composition.StagesPartition` | daemon/src/ompire_daemon/workflow_composition.py:182-217 | in accepted stages every execution step is in exactly one stage |
| `Composition.DefaultsAccepted` | daemon/src/ompire_daemon/workflow_composition.py:182-217 | one stage for each source step, holding its expansion, is always accepted |
| `Composition.DefaultStagesAccepted` | daemon/src/ompire_daemon/workflow_composition.py:261-308 | the stages a document gets by default are of that kind |
| `Composition.CompleteAgain` | daemon/src/ompire_daemon/workflow_composition.py:288-298 | complete bindings stay as they are when bound again |
| `Composition.CompleteExact` | daemon/src/ompire_daemon/workflow_composition.py:288-298 | bindings are completed by the declared defaults, which never take the place of what was given; they are refused exactly if a key is no parameter, or its value, or the default where none was given, is missing or of another type |
| `Composition.SharedExact` | daemon/src/ompire_daemon/workflow_composition.py:74-121 | a snapshot of a shared definition is accepted exactly if its parameters are named and few enough, their defaults of the declared types, its steps primitive with proper placeholders, and its content the one its revision names |
| `Composition.StepTaken` | daemon/src/ompire_daemon/workflow_composition.py:262-303 | a source step is accepted exactly if its name is a new and usable one, there is room and budget for what it expands to, and a use has an available definition and values for all of its parameters |
| `Composition.ExpandUse` | daemon/src/ompire_daemon/workflow_composition.py:299-302 | the steps of one use expand one after the other, within one budget |
| `Composition.GatherOne` | daemon/src/ompire_daemon/workflow_composition.py:262-308 | one turn of the source loop does what its specification says, and keeps the budget |
| `Composition.GatherAgain` | daemon/src/ompire_daemon/workflow_composition.py:261-308 | the second pass over a retained source follows the first, up to where the budget may run out |
| `Composition.BudgetSuffices` | daemon/src/ompire_daemon/workflow_definitions.py:3094-3142 | the second expansion stays within its budget, because its steps are no larger than those the retained document lists within its own bounds |
| `Composition.FrozenWithinBudget` | daemon/src/ompire_daemon/workflow_composition.py:220-343 | without any assumption about sizes: it is accepted again, with the same result, exactly if the second expansion stays within its budget |
| `Composition.AssembleDefinition` | daemon/src/ompire_daemon/workflow_composition.py:309-343 | parsing, stages, and for a retained document the comparison with what it lists |
| `Composition.CompileDefinition` | daemon/src/ompire_daemon/workflow_composition.py:220-343 | the loop computes the compilation that the lemmas speak about; every source step is kept: an ordinary one in its canonical form, a use with the author's bindings unchanged and defaults only for what was left out, of a sound definition that is the document's own or the catalog's; the stages are the document's, or one for each source step; and the execution steps are what the source expands to |
| `Composition.SourceKept` | daemon/src/ompire_daemon/workflow_composition.py:261-307 | what becomes of each source step and its bindings |
| `Composition.SourceStaged` | daemon/src/ompire_daemon/workflow_composition.py:258-331 | the stages are the document's own, or one for each source step, named and described by it or by its shared definition |
| `Composition.StepsExpand` | daemon/src/ompire_daemon/workflow_composition.py:261-307 | the execution steps are what the retained source expands to, one step after the other |
| `Composition.FrozenIsEnough` | daemon/src/ompire_daemon/workflow_composition.py:220-343 | what compiles is accepted again from its retained document and frozen snapshots, without the catalog, with the same steps, bindings, definitions and stages |
| `DataDirectory.PlanOrder` | daemon/src/ompire_daemon/datadir.py:57-68 | every file of the source is placed once, the database last |
| `DataDirectory.Destination.Stage` | daemon/src/ompire_daemon/datadir.py:151-171 | success means the staged copy has the source's bytes; nothing else is touched, even by a partial copy |
| `DataDirectory.Destination.Rename` | daemon/src/ompire_daemon/datadir.py:67-68 | places one file; the database only when everything else is in place |
| `DataDirectory.Destination.StageAll` | daemon/src/ompire_daemon/datadir.py:63-70 | all files are staged, or the run is given up with the source's names touched only |
| `DataDirectory.Destination.RenameAll` | daemon/src/ompire_daemon/datadir.py:67-70 | at every moment the database is in place only if everything else is |
| `DataDirectory.Destination.DiscardAll` | daemon/src/ompire_daemon/datadir.py:174-177 | removes staged copies and nothing else, all of them if nothing interferes |
| `DataDirectory.Destination.Discard` | daemon/src/ompire_daemon/datadir.py:174-177 | removes one staged copy and nothing else |
| `DataDirectory.Destination.CarryForward` | daemon/src/ompire_daemon/datadir.py:39-81 | an existing database is never touched; carried means everything is in place; it raises only if something interfered |
| `DataDirectory.Destination.Lives` | daemon/src/ompire_daemon/datadir.py:39-81 | over any starts cut short anywhere, a placed database has its token, audit log and write-ahead log with it |
| `DataDirectory.Destination.LastStart` | daemon/src/ompire_daemon/datadir.py:39-81 | the first start that nothing interrupts completes |
| `ContainerProcesses.StaysExited` | local-test/fakes/workshop-contract.py:81-93 | a process that has exited never runs again, whoever holds its id |
| `ContainerProcesses.Registry.Execute` | local-test/fakes/workshop-contract.py:112-128 | registers the caller only if its container is the one launched and not removed, and exactly then if nothing happens in between; every running process stays on record |
| `ContainerProcesses.Registry.StillRecorded` | local-test/fakes/workshop-contract.py:118-121 | every recorded process that still runs is kept |
| `ContainerProcesses.Registry.Pin` | local-test/fakes/workshop-contract.py:148-157 | a descriptor that is kept pins exactly the recorded process; otherwise that process has exited |
| `ContainerProcesses.Registry.PinAll` | local-test/fakes/workshop-contract.py:145-157 | every running process of the container is pinned, and nothing else |
| `ContainerProcesses.Registry.SignalAll` | local-test/fakes/workshop-contract.py:158-162 | signals every pinned process, and only processes registered for the container |
| `ContainerProcesses.Registry.AwaitExits` | local-test/fakes/workshop-contract.py:165-172 | a wait that ends normally means all of the container's processes have exited |
| `ContainerProcesses.Registry.RemoveProcesses` | local-test/fakes/workshop-contract.py:139-178 | signals the container's registered processes only, and every one that still runs; a normal return, certain if no recorded one runs, means all have exited and are off the record; any other container closed before stays closed exactly if its entry is gone; an error changes no record |
| `ContainerProcesses.Registry.Conclude` | local-test/fakes/workshop-contract.py:139-178 | what the record holds afterwards, and exactly which removed containers it no longer keeps closed |
| `ContainerProcesses.Registry.Serve` | local-test/fakes/workshop-contract.py:97-178 | over any interleaving and any removals: no process of a closed container runs, and none is registered for it later, unless the removal of another container reopened it |
| `ContainerProcesses.LateRemovalReopens` | local-test/fakes/workshop-contract.py:112-144 | two containers launched, the second removed, then the first by a late removal: a process is registered for the second again |
| `SigningKeys.OwnCapability` | daemon/src/ompire_daemon/gpg.py:418-427 | only a key's own capability letters count |
| `SigningKeys.UpperAt` | daemon/src/ompire_daemon/gpg.py:353-366 | letters become the capitals at the same place of the alphabet, and nothing else changes |
| `SigningKeys.LastSixteen` | daemon/src/ompire_daemon/gpg.py:357 | the key id that stands in for a missing one is the end of the fingerprint |
| `SigningKeys.ParseCandidates` | daemon/src/ompire_daemon/gpg.py:333-415 | the loop computes the scan that the lemmas speak about |
| `SigningKeys.ParsePrint` | daemon/src/ompire_daemon/gpg.py:333-415 | scanning what gpg prints finds exactly the keys that can sign by themselves, have their secret half and are not marked i, d, r or e, in order, each with its own fingerprint and keygrip and its primary's fingerprint and first user id |
| `SigningKeys.OtherRecordsIgnored` | daemon/src/ompire_daemon/gpg.py:333-415 | records of other kinds may stand anywhere |
| `Attention.WorstIsMaximal` | daemon/src/ompire_daemon/notifications.py:279-297 | the aggregate is one of the entries, of the highest tier, and none exactly if there is none |
| `Attention.NewcomerWaits` | daemon/src/ompire_daemon/notifications.py:279-297 | an entry that is not worse than all others does not displace what is published |
| `Attention.ReplacedKeepsOrder` | daemon/src/ompire_daemon/notifications.py:286-289 | a changed entry keeps its place among the sources, and a new one goes last |
| `Attention.PublishedIsWorst` | daemon/src/ompire_daemon/notifications.py:279-297 | sources that follow the history give a worst live entry |
| `Attention.AttentionNotifier.SetSource` | daemon/src/ompire_daemon/notifications.py:279-297 | an event goes out exactly if the task's published entry changed, and no other task is affected |
| `Attention.AttentionNotifier.Enter` | daemon/src/ompire_daemon/notifications.py:299-314 | the entry and the event that announces it stay together |
| `Attention.AttentionNotifier.Leave` | daemon/src/ompire_daemon/notifications.py:322-327 | a clearing event exactly if there was an entry |
| `Attention.AttentionNotifier.Clear` | daemon/src/ompire_daemon/notifications.py:329-336 | nothing of the cleared task is left, and no other task is affected |
| `Attention.AttentionNotifier.Tell` | daemon/src/ompire_daemon/notifications.py:243-277 | each kind of event changes one source of one task |
| `Attention.AttentionNotifier.Run` | daemon/src/ompire_daemon/notifications.py:130-141 | after any history folding the published events gives the snapshot, in which every task has a worst live entry, in the order silent, badge, notify, interrupt and with the tier listed for its status, or none exactly if nothing is live |
| `LaunchMigrations.UpgradesKeepPolicies` | daemon/alembic/versions/0015_pin_declarative_workflow_revisions.py:96-134 | from version 1 to version 4 every step, and the judge, keep their role and role map |
| `LaunchMigrations.BindingsWritten` | daemon/alembic/versions/0014_pin_model_policy_per_consumer.py:60-122 | field by field, what the first upgrade writes: a binding for every step that had a role and one for the judge, the new version, and nothing else but what was there |
| `LaunchMigrations.BackTo1` | daemon/alembic/versions/0014_pin_model_policy_per_consumer.py:167-201 | the first migration and its inverse give a document in normal form back |
| `LaunchMigrations.RoundTrip` | daemon/alembic/versions/0014_pin_model_policy_per_consumer.py:84-201 | so do all upgrades followed by all downgrades |
| `LaunchMigrations.OthersUntouched` | daemon/alembic/versions/0021_launch_tasks_from_pinned_results.py:53-124 | documents of other versions are left alone |
| `LaunchMigrations.NothingAttached` | daemon/alembic/versions/0021_launch_tasks_from_pinned_results.py:53-84 | an upgraded task has no attachments, no commit they came from, and nothing to acknowledge |
| `LaunchMigrations.BackfillsExact` | daemon/alembic/versions/0014_pin_model_policy_per_consumer.py:50-56 | recording all resumed sessions of a task works exactly if the judge is not among them or its role is in the role map |
| `LaunchMigrations.JudgeContinues` | daemon/alembic/versions/0014_pin_model_policy_per_consumer.py:98-154 | a resumed judge continues under the role, profile and role map of the judge's binding, if its role is one of the four |
| `LaunchMigrations.OthersContinue` | daemon/alembic/versions/0014_pin_model_policy_per_consumer.py:129-154 | every other resumed session continues under the default role, with the auxiliary roles of the same map |
| `LaunchMigrations.StrayJudgeRole` | daemon/alembic/versions/0014_pin_model_policy_per_consumer.py:50-56 | a judge role outside the role map stops the migration only with a judge session to resume |
| `LaunchMigrations.ConvertibleExact` | daemon/alembic/versions/0014_pin_model_policy_per_consumer.py:70-201 | one task gets through all migrations and back exactly if its document has what each version's migration reads |
| `LaunchMigrations.Database.Upgrade0014` | daemon/alembic/versions/0014_pin_model_policy_per_consumer.py:70-126 | every document is upgraded and the policy of exactly the resumed sessions of version-1 tasks is recorded, or nothing when one makes it raise, which is exactly when a document cannot be read or a resumed judge's role is not in its role map |
| `LaunchMigrations.Database.Backfill` | daemon/alembic/versions/0014_pin_model_policy_per_consumer.py:129-154 | the sessions of one task: all are recorded, or it raises for a judge role outside the role map |
| `LaunchMigrations.Database.Downgrade0014` | daemon/alembic/versions/0014_pin_model_policy_per_consumer.py:157-201 | every document is downgraded and the recorded policies go, or nothing changes |
| `LaunchMigrations.Database.Upgrade0015` | daemon/alembic/versions/0015_pin_declarative_workflow_revisions.py:96-134 | every document is upgraded, and its retired bindings can be read back from the evidence |
| `LaunchMigrations.Database.RecordRetired` | daemon/alembic/versions/0015_pin_declarative_workflow_revisions.py:109-125 | the evidence of one task is added without disturbing another's |
| `LaunchMigrations.Database.Downgrade0015` | daemon/alembic/versions/0015_pin_declarative_workflow_revisions.py:151-186 | the judge's binding comes back from the evidence, where there is one |
| `LaunchMigrations.Database.Upgrade0021` | daemon/alembic/versions/0021_launch_tasks_from_pinned_results.py:53-84 | every document is upgraded |
| `LaunchMigrations.Database.Downgrade0021` | daemon/alembic/versions/0021_launch_tasks_from_pinned_results.py:97-124 | every document is downgraded |
| `LaunchMigrations.Database.ThereAndBack` | daemon/alembic/versions/0021_launch_tasks_from_pinned_results.py:53-124 | over a whole table, with its resumed sessions: no migration raises exactly if every document can be converted, and then every version-1 document in normal form is itself again |

## Left out

- Digests: a recorded length and SHA-256 stand for the bytes themselves, so two contents with the same digest are the same content.
- Writing: one write call writes the whole content; partial writes appear as failed calls, except in `datadir`, where a copy may be cut anywhere.
- fsync, permission bits, owners, time stamps, and devices and pipes that block when opened.
- Directory entries called `.` or by the empty name: no directory has them.
- ExportManager.Lifetime: does not let others give the staging directory, or a file of this export in it, another name, or write into it, because then `created` says nothing (`ExportSafety.HonestyLimit`); and a directory has at most one name until the staging directory has been opened. Deleting it, what is in it, or reusing its name is modelled.
- `_open_root` and the list of roots that may not be exported to: the root is given as an open directory.
- The error text of a refused call: a failure is told apart from others only where the caller tells it apart.
- ExportManager.RunExport: does not model a cancelled installation whose thread goes on while the shutdown settles the export, so that no moved file is denied holds for an installation that runs alone or dies; `ExportClients` and `ExportLimits.DenialLimit` say what happens otherwise. Of a cancel nothing else is modelled.
- ExportRegistry.Registry.Admit: does not model that the result, its payload and the project's registration are verified again in the same transaction, because they live in other tables; a confirmation's result, manifest and token are one value.
- The order of the files of a selection: they are taken in the order of the request, not sorted by path; the fingerprint of the selection is not modelled.
- Staging identities are inode numbers alone, because numbers are never used twice across devices.
- AgentSupervision.AgentSupervisor.Run: does not model cancellation, which in-place reconfiguration does not handle, and every start carries a commit; the properties of a handle hold when it is returned, because the boundary is not held across the prompt.
- The order in which waiting callers get a session's boundary, the check of the ask timeout, the session tracker's own status, and the ring buffer's history.
- What killing or terminating a child does to it: a child may be found dead at any moment, whether or not somebody asked for it.
- A process handed out by the operating system is fresh, and a child's native session does not change while it lives.
- The upstream side of the forge broker, header framing, redirects, and the audit log. The token is not empty.
- Git: reading the target tree and comparing bases; a tree reading is a parameter that says truly what is there.
- Regular-expression engines: leftmost-longest alternation is modelled by its meaning.
- JSON: an object is its list of fields in canonical order. The check of a document's size is a parameter, of which only what it says of the listed steps is assumed, and so are the digest of a shared definition and the grammar of primitive steps.
- Composition.CompileDefinition: does not model which error is reported, or where; a document that is refused gives nothing.
- Mappings that are malformed (unknown keys, wrong types outside parameter values) are refused before the model starts.
- Reading shared definitions from the package's resources: the catalog is a parameter whose entries are under their own names.
- DataDirectory.Destination.CarryForward: starts where the snap environment names a source other than the data directory; the early returns for any other environment do nothing.
- A source that changes while it is copied: snapd stops the old daemon first.
- The file lock around the registry of processes: each call of `execute` and `remove_processes` works on the record alone, as the lock guarantees. Start ticks and boot identity are one mark that no two processes share. A timeout is any wait that ends without an exit.
- ContainerProcesses.Registry.RemoveProcesses: takes any container id that has been given out, because its callers have read one from an entry.
- Splitting gpg's output into lines and fields; time stamps are kept as text. Keyrings are printed with a fingerprint and keygrip for every key and a non-empty first user id for every primary.
- Desktop notifications, their timers and the preferences about them: only what is published to clients is modelled.
- Migrations: the tables' other columns, the time stamps and fixed labels of the session policies that 0014 records, and the verbatim copy of the version-2 document in 0015.
- LaunchMigrations.RoundTrip: is stated for documents in normal form (exactly four roles, explicit step and judge roles, no key of a later version) and for tasks without evidence of other retired bindings, because a version-1 document has nowhere to keep anything else.
- Start-up wiring, configuration, authentication, the web interface, workflow execution, delivery and review.
