# Roost: a verified model of its hard cores

Roost runs agents and terminals on many machines. This project models, in Dafny, the parts of it that are
hardest to get right, and proves what they promise for every input and every run:

| part | modules | main results |
|---|---|---|
| coordinator relocation on Windows | `Relocation`, `RelocationProofs`, `RelocationHelper` | after any run of cut-off calls one completed restore gives back exactly the old files; at every moment each file is wholly the old one or wholly the bytes that the published prepare read |
| rewind and multi-file edits | `RestorePoints`, `RestorePointsProofs`, `Rewinds`, `RestoreStore`, `FileMutations`, `EditHost` | restoring from checkpoint k is time travel to before k, with rewinds in the run under exactly which steps; a failed edit is undone whole |
| Sync inbound | `SyncProtocol`, `SyncProofs`, `SyncLosses`, `SyncCoverage`, `SyncStore` | frames are conserved and applied at most once; exactly which runs apply all of them in order, and in exactly which the acknowledgements cover applied frames only |
| terminal input | `InputRouting`, `InputProofs`, `InputRuns`, `InputRouterClass` | exactly which runs only ever resend what was refused unwritten; in those, no batch reaches a shell twice, whatever routes are lost and claimed |
| ZIP inspection | `ZipFormat`, `ZipProofs`, `ZipMatching`, `ZipInspector`, `ZipArchive` | from the manifest's text and the archive's bytes, one pass with counters, a sort and 64-bit offsets decides exactly the declarative agreement of the two |
| JSON and security trees | `Utf`, `Numerals`, `Json`, `JsonProofs`, `JsonParser`, `ArchivePath`, `SecurityTree`, `SecurityTreeProofs` | every printable document parses back; a snapshot reads back as the tree it was taken of |
| command lines and string blocks | `CommandLine`, `StringBlocks` | exactly which argument lists Windows splits back; environment blocks decode to a sorted permutation |
| background jobs and output capture | `Jobs`, `JobProofs`, `JobRegistryClass`, `BashCapture` | bounds, exactly-once reports and frozen terminal records over whole runs; no output byte is lost |
| calendar, module walk, find paging | `Calendar`, `Walks`, `ModuleGraph`, `FindPaging` | two civil-from-days implementations are the calendar; the walk is unique, and the transitive closure in exactly which trees; pages tile |

Code that changes things step by step is a class or a method with loops, proved equal to a function of the
old state; the theorems are about those functions and about runs of them. Where a function is passed as a value
(an entry reader, a printer, the declarations of a file) the theorems hold for every such function, and the
concrete one is plugged in at the end (`ZipArchive`, `SecurityTreeProofs`, `ModuleGraph`). Crashes are budgets: a call stops after a given number of file steps.

## Where the code and its own words differ

The model follows the code. Each difference has a concrete run and, where the property can hold, its exact condition.

- `prepare` stores a file's descriptor whatever its length, but `promote` and `restore` refuse a text over 64 KiB
  (native/windows/roost-win-helper.cpp:6830-6835). After any run a restore completes if and only if no descriptor from
  before the run is that long (`RestoreAfterRunIff`); on `OversizedDescriptorIsStranded`'s disk prepare succeeds and no
  restore ever does, whatever happens in between.
- Frames held before hydration are meant to survive a redial ("the coordinator will not send it again",
  crates/roost-client-core/src/handle_sync.rs:249-250), but `open_link` clears the queue and `retain` drops the
  oldest at 512 (crates/roost-client-core/src/sync/link.rs:258-279, 383-388). `RedialDiscardsHeldFrame` loses a frame,
  `SlowSnapshotIsCoveredIff` has the exact bound 512, and `ExactlyOnceIff` is the exact condition, without hypotheses.
- A subscription announcement without the terminal domain makes the store count as hydrated while frames are
  still held; the next frame overtakes them and its acknowledgement covers a frame that was not applied
  (`StrandedFrameIsAcknowledged`). Frames are applied in order if and only if no step applies one while others are
  held (`AlwaysInOrderIff`), and no acknowledgement covers a held frame if and only if no step acknowledges past one of
  its link (`NeverCoversHeldIff`).
- So an acknowledgement may cover a frame that is still held or was lost. Over a whole run the acknowledgements cover
  nothing but applied frames if and only if no step, on receiving or on draining, acknowledges past a held or lost frame
  of its link (`AcksCoverOnlyAppliedIff`).
- A rewind leaves the checkpoints of the branch it abandons in place, and a later restore can bring their contents
  back (`AbandonedBranchComesBack`). Exactly which steps move what a restore from k gives is `StepMovesIff`, over whole
  runs `RestorePointHoldsIff`; restores from at or before every rewind, or from above every earlier number, stay time
  travel (`RewindsKeepTimeTravel`).
- A result settles its batch by sequence number alone, which the comment at
  crates/roost-client-core/src/terminal/input/router/settlement.rs:18-19 relies on to ignore late results. A refusal
  that is delivered again after its batch went out again takes that batch back from a worker that may still write it,
  and the batch is written twice (`RepeatedRefusalWritesTwice`). What waits to be sent was always refused unwritten if
  and only if no refusal is delivered while another hand-over of its batch is open (`AlwaysSafeToSendIff`); answers
  delivered once each are enough (`AnsweredOnceIsEnough`).
- The comment that a sending lane "holds nothing unsent" does not hold for a full in-flight window
  (`RequeueOnlyUnsendsIff`): when the first of k typed batches is refused the rest stay if and only if k is at most
  eight, and the ninth is dropped without ever having been handed over (`RefusalKeepsTheRestIff`).
- A closed or evicted conversation that is used again numbers its jobs from `bg_1` again, so a late outcome can
  settle another job: `JobIdsAreUniqueIff`, `LateOutcomeSettlesAnotherJob`.
- `restoreFileSecurityTree` sorts by the number of backslashes in paths whose backslashes were already replaced:
  the depth is always zero (`DepthIsAlwaysZero`) and the snapshot's own order remains (`RestoreOrderIsSnapshotOrder`).
- A quoted program name is read by other rules than a quoted argument: `SplitsBackIff`, `TrailingBackslashIsDoubled`.
- A file that two declarations name with different directories is walked with the first only. `MissedByTheCode` gives a
  tree where a declared module is not reached; `WalkIsCompleteIff` is the exact condition, and
  `SingleDirectoriesIff` says when the walk itself can see that it is complete.

## Model

| member | source | states |
|---|---|---|
| `RelocationProofs.RestoreUndoesAnyRun` | native/windows/roost-win-helper.cpp:7004-7191 | from any unmarked disk, after any run of prepare, promote and restore calls cut off anywhere, and refills of the stage, one completed restore leaves exactly the files, bytes and descriptors of before; neither promote nor restore refuses, and six file steps always suffice |
| `RelocationProofs.MarkerImpliesComplete` | native/windows/roost-win-helper.cpp:7031-7103 | in every reachable state, commits included, a marker in the rollback directory implies a set that holds, for all six files, the bytes and descriptors and, for the four admitted ones, the staged bytes of the disk as the prepare that published it read it |
| `RelocationProofs.FilesAreAlwaysWhole` | native/windows/roost-win-helper.cpp:7111-7151 | at every moment of every run each coordinator file is wholly the one from before the run or, under a marker, wholly the admitted one: the bytes the stage held when that prepare read it, or no sidecar |
| `RelocationProofs.CompletedPromotionIsTotal` | native/windows/roost-win-helper.cpp:7111-7151 | a promotion that completes, first try or retry, leaves all four admitted files and no sidecar |
| `RelocationProofs.CompletedPromotionOfRun` | native/windows/roost-win-helper.cpp:7004-7151 | a promotion that completes after any run leaves the four files with exactly the bytes that the stage held when the published prepare read it, and no sidecar |
| `RelocationProofs.CompletedRestoreIsExact` | native/windows/roost-win-helper.cpp:7152-7191 | a completed restore changes nothing but the coordinator files, and makes them those that prepare read |
| `RelocationProofs.RestoreCompletesIff` | native/windows/roost-win-helper.cpp:7152-7191 | with enough steps a restore completes if and only if every saved descriptor can be read back |
| `RelocationProofs.RestoreAfterRunIff` | native/windows/roost-win-helper.cpp:7004-7191 | after any run a restore with enough steps completes if and only if every descriptor from before the run can be read back |
| `RelocationProofs.RunKeepsUndo` | native/windows/roost-win-helper.cpp:7004-7191 | over every run: without a marker the coordinator is untouched; with one, the set is what the published prepare read, its priors are the files from before the run and every file is whole |
| `RelocationProofs.TooLongIsNeverRestored` | native/windows/roost-win-helper.cpp:6830-6835 | after any run, commits included, whose prepare read a descriptor over the limit, no restore completes under any budget |
| `RelocationProofs.PreparedIsUndoableIff` | native/windows/roost-win-helper.cpp:7004-7103 | a completed prepare can be restored if and only if no prior descriptor is over the readable size |
| `RelocationProofs.OversizedDescriptorIsStranded` | native/windows/roost-win-helper.cpp:6830-6835 | a disk on which prepare succeeds, and after it, whatever calls, cut off anywhere, and refills of the stage follow, no restore completes |
| `RelocationProofs.PrepareKeeps` | native/windows/roost-win-helper.cpp:7004-7103 | prepare never touches the coordinator files, publishes only a complete set, and finishes within its step budget when the stage is exact |
| `RelocationProofs.PromoteFromKeeps` | native/windows/roost-win-helper.cpp:7111-7151 | promote from any file on, cut off anywhere, keeps every file whole and the rollback set intact |
| `RelocationProofs.RestoreFromKeeps` | native/windows/roost-win-helper.cpp:7152-7191 | restore from any file on, cut off anywhere, keeps every file whole and the rollback set intact |
| `RelocationHelper.Helper.PrepareAction` | native/windows/roost-win-helper.cpp:7004-7103 | the step-by-step prepare does to the disk what its specification says, under any step budget |
| `RelocationHelper.Helper.SaveFiles` | native/windows/roost-win-helper.cpp:7043-7078 | the saving loop over the six files equals its specification from any state |
| `RelocationHelper.Helper.PromoteAction` | native/windows/roost-win-helper.cpp:7111-7151 | the promoting loops equal their specification from any state and budget |
| `RelocationHelper.Helper.RestoreAction` | native/windows/roost-win-helper.cpp:7152-7191 | the restoring loop equals its specification from any state and budget |
| `RelocationHelper.Helper.CommitAction` | native/windows/roost-win-helper.cpp:7192-7217 | the committing loop equals its specification from any state and budget |
| `RelocationHelper.Helper.Execute` | native/windows/roost-win-helper.cpp:6971-7222 | one whole call, identity checks included, equals the specification that the theorems are about |
| `RestorePointsProofs.RestoreIsTimeTravel` | crates/roost-agent-tools/src/restore_points.rs:40-136 | after any run of recorded changes with non-decreasing checkpoint ids, restoring from k succeeds and gives exactly the files of the moment before the first change of any checkpoint from k on |
| `Rewinds.RewindsKeepTimeTravel` | crates/roost-agent-tools/src/restore_points.rs:40-136 | from a moment with every checkpoint below k, whatever changes and rewinds led to it, and through any changes and rewinds from k on, with numbers going on from the last step: a restore from k gives exactly the files of that moment |
| `Rewinds.StepMovesIff` | crates/roost-agent-tools/src/restore_points.rs:40-136 | in every store, a change or a rewind moves what a restore from k gives if and only if it alters a file nothing from k on saved, or first saves a path that a later checkpoint saved in another state |
| `Rewinds.RestorePointHoldsIff` | crates/roost-agent-tools/src/restore_points.rs:40-136 | from any store on and over every run, a restore from k gives the same files at every moment if and only if no step does that |
| `Rewinds.RestoreGives` | crates/roost-agent-tools/src/restore_points.rs:101-126 | a restore from k makes of a path what the oldest checkpoint from k on saved of it, and leaves it where none did |
| `Rewinds.AbandonedBranchComesBack` | crates/roost-agent-tools/src/restore_points.rs:40-136 | a run with a rewind after which a restore gives what an abandoned branch saved, and not what the file held |
| `RestorePointsProofs.RestoreReportsExactly` | crates/roost-agent-tools/src/restore_points.rs:75-136 | restoring changes only recorded paths and reports exactly those, restored if they exist afterwards and deleted if not |
| `RestorePointsProofs.RestoreAbsorbsLaterRestore` | crates/roost-agent-tools/src/restore_points.rs:75-136 | restoring from k and then from j at or before k is restoring from j |
| `RestorePointsProofs.ChangeIsUndone` | crates/roost-agent-tools/src/restore_points.rs:40-136 | one more recorded change in the newest checkpoint makes no difference to a restore past it |
| `RestorePointsProofs.RunIsWellFormed` | crates/roost-agent-tools/src/restore_points.rs:40-72 | every checkpoint a run writes records each path at most once, and restores without error |
| `RestoreStore.Store.RecordBeforeChange` | crates/roost-agent-tools/src/restore_points.rs:40-72 | recording in place equals its specification: only the first record of a path in a checkpoint counts |
| `RestoreStore.Store.PutBackCheckpoint` | crates/roost-agent-tools/src/restore_points.rs:104-126 | putting back one checkpoint, entry by entry in recorded order, equals its specification |
| `RestoreStore.Store.RestoreFromCheckpoint` | crates/roost-agent-tools/src/restore_points.rs:75-136 | the restore loop equals the function that the time-travel theorem is about |
| `RestoreStore.SortNewestFirst` | crates/roost-agent-tools/src/restore_points.rs:89-102 | the checkpoints come newest first, each once |
| `FileMutations.Coalesce` | crates/roost-agent-tools/src/file_mutations.rs:252-272 | refuses if and only if two sections of one path carry different tags; else one section per path in order of first mention, with all its operations in order |
| `FileMutations.CheckpointRecords` | crates/roost-agent-tools/src/file_mutations.rs:155-176 | before the first mutation every source and every destination of every section is recorded |
| `FileMutations.EditIsARun` | crates/roost-agent-tools/src/file_mutations.rs:155-202 | an edit, cut off after any number of file operations, is a run of recorded changes of its checkpoint |
| `FileMutations.EditIsUndone` | crates/roost-agent-tools/src/file_mutations.rs:87-202 | however far the write loop got, restoring from the edit's checkpoint gives the files of before it |
| `EditHost.Host.Stage` | crates/roost-agent-tools/src/file_mutations.rs:87-154 | the staging loop stops at the first section that fails and stages nothing on disk |
| `EditHost.Host.Checkpoint` | crates/roost-agent-tools/src/file_mutations.rs:155-176 | the recording loop equals its specification |
| `EditHost.Host.WriteEdits` | crates/roost-agent-tools/src/file_mutations.rs:177-202 | the write, move and remove loop, failing after any number of operations, equals its specification |
| `EditHost.Host.Edit` | crates/roost-agent-tools/src/file_mutations.rs:71-241 | a conflict or a staging failure changes no file, no checkpoint and not the edit store; a failed write loop leaves the edit store alone |
| `SyncProofs.RunConserves` | crates/roost-client-core/src/handle_sync.rs:79-130 | over every run each application frame received is exactly one of applied, held or lost |
| `SyncProofs.AppliedAtMostOnce` | crates/roost-client-core/src/handle_sync.rs:79-130 | no frame is applied twice, whatever redials and hydrations happen |
| `SyncProofs.AlwaysInOrderIff` | crates/roost-client-core/src/handle_sync.rs:234-271 | at every moment of a run the frames were applied in arrival order, with the held ones behind them, if and only if no step applied a frame while others were held |
| `SyncProofs.OnlyStrandingOvertakes` | crates/roost-client-core/src/handle_sync/apply_frame.rs:46-70 | where no announcement strands held frames, none is ever overtaken and a hydrated store holds none |
| `SyncProofs.RunAcknowledgesApplied` | crates/roost-client-core/src/handle_sync.rs:119-130 | every acknowledgement names a non-zero sequence of a frame already applied on the link it goes out on |
| `SyncLosses.LostNothingIff` | crates/roost-client-core/src/sync/link.rs:258-398 | a run loses no frame if and only if no step meets one of the losing guards |
| `SyncLosses.ExactlyOnceIff` | crates/roost-client-core/src/handle_sync.rs:245-271 | for every run: all application frames received were applied, exactly once and in arrival order, if and only if no losing guard was met, no step applied a frame while others were held, and none is held at the end |
| `SyncLosses.AcksCoverAppliedFrames` | crates/roost-client-core/src/handle_sync.rs:119-130 | with increasing sequences per link, a frame that an acknowledgement covers was applied, was lost by a losing guard, or is held behind an overtaking one; not lost in a lossless run, not held in a run that acknowledges nothing past a held frame (`AcksCoverOnlyAppliedIff` is exact) |
| `SyncCoverage.AcksCoverOnlyAppliedIff` | crates/roost-client-core/src/handle_sync.rs:79-130 | with increasing sequences per link: at every moment of a run the acknowledgements cover applied frames only, if and only if no step acknowledges, on receiving or on draining, past a frame of its link that is held or was lost |
| `SyncCoverage.StepCoversIff` | crates/roost-client-core/src/handle_sync.rs:79-130 | from a state whose acknowledgements cover applied frames only, exactly these steps make one cover another |
| `SyncCoverage.HydrationAcknowledges` | crates/roost-client-core/src/handle_sync.rs:245-271 | hydration acknowledges the highest held sequence of the current link, and nothing if a held frame of it is broken or none is held |
| `SyncLosses.NeverCoversHeldIff` | crates/roost-client-core/src/handle_sync.rs:119-130 | at no moment of a run does an acknowledgement cover a held frame if and only if no step acknowledges the frame it receives while an earlier one of the same link is held |
| `SyncLosses.SlowSnapshotIsCoveredIff` | crates/roost-client-core/src/sync/link.rs:383-388 | after a hydration that k frames waited for all k are acknowledged, and all were applied if and only if k is at most 512 |
| `SyncLosses.RedialDiscardsHeldFrame` | crates/roost-client-core/src/sync/link.rs:258-279 | a run in which a held frame is never applied although hydration completes |
| `SyncLosses.StrandedFrameIsAcknowledged` | crates/roost-client-core/src/handle_sync/apply_frame.rs:46-70 | a run in which frame 2 is acknowledged while frame 1 of the link is still held |
| `SyncStore.Store.HandleSyncFrame` | crates/roost-client-core/src/handle_sync.rs:79-130 | the handler in place equals the step that the theorems are about |
| `SyncStore.Store.HydrateStore` | crates/roost-client-core/src/handle_sync.rs:245-271 | the draining loop equals its specification, the one acknowledgement included |
| `SyncStore.Store.RetainFrame` | crates/roost-client-core/src/sync/link.rs:383-388 | a frame past the 512th drops the oldest |
| `SyncStore.Store.Open` | crates/roost-client-core/src/sync/link.rs:258-279 | an open link cannot be replaced and a refused opening changes nothing; an accepted one starts empty, and every frame held before is lost, not applied: held and lost together keep their frames |
| `SyncStore.Store.Close` | crates/roost-client-core/src/sync/link.rs:285-295 | afterwards that link is not the current one; closing another link than the current changes nothing; no frame is applied, lost or forgotten by it, and after closing the current one no application frame may be applied |
| `SyncStore.Store.InstallSubscribed` | crates/roost-client-core/src/sync/domain.rs:33-53 | an announcement of another than the current link is refused and changes nothing; of the current one, each announced domain is recorded and not yet ready, and the store counts as hydrated unless the terminal domain is announced |
| `SyncStore.Store.Publish` | crates/roost-client-core/src/handle_sync/hydration.rs:191-229 | only a current ticket makes its domain ready, and the terminal domain hydrates |
| `InputRuns.NoBatchIsWrittenTwice` | crates/roost-client-core/src/handle_input.rs:119-285 | over every run of typing, answers (repeated ones too), losses, claims and sweeps, with a worker that refuses for a changed route only before writing: no batch's bytes are written twice, provided no refusal is delivered that puts a batch back while another hand-over of it is open |
| `InputRuns.HandedAgainOnlyAfterRefusal` | crates/roost-client-core/src/handle_input.rs:217-285 | under the same condition a batch handed to a transport again was refused unwritten on Sync before, and the client had been told |
| `InputRuns.AlwaysSafeToSendIff` | crates/roost-client-core/src/terminal/input/router/settlement.rs:13-32 | at every moment of a run each batch waiting to be sent was refused unwritten by every worker it was handed to, if and only if no refusal is delivered that puts a batch back while another hand-over of it is open |
| `InputRuns.AnsweredOnceIsEnough` | crates/roost-client-core/src/handle_input.rs:217-285 | a run that delivers each answer at most once meets that condition |
| `InputRuns.RepeatedRefusalWritesTwice` | crates/roost-client-core/src/terminal/input/router/settlement.rs:13-32 | a run in which the same refusal arrives twice and the bytes of one batch are written twice |
| `InputRuns.LanesStayBounded` | crates/roost-client-core/src/terminal/input.rs:31-45 | in every reachable state of every run a lane holds at most 200 batches and 256 KiB, at most 8 in flight, in typing order |
| `InputRuns.RequeueOnlyUnsendsIff` | crates/roost-client-core/src/terminal/input/router/route_loss.rs:50-100 | putting a refused batch back keeps every other batch if and only if the lane was not sending or held nothing unsent; else exactly the unsent ones go |
| `InputRuns.RefusalKeepsTheRestIff` | crates/roost-client-core/src/terminal/input/router/route_loss.rs:50-100 | for every k up to 200: after k batches typed on Sync and a refusal of the first, the others are all still there if and only if k is at most eight; a later one is gone and was never handed over |
| `InputProofs.StepKeeps` | crates/roost-client-core/src/handle_input.rs:26-347 | every event but a refusal that puts back a batch open elsewhere keeps: sequences distinct across lanes, accounts exact, a batch open at one transport only, an unsent batch open at none |
| `InputRuns.RunKeeps` | crates/roost-client-core/src/handle_input.rs:26-347 | so does every run of such events from the empty router |
| `InputRouterClass.InputRouter.AdmitBatch` | crates/roost-client-core/src/terminal/input/router/mod.rs:84-146 | admission in place equals its specification, refusals and spent sequence numbers included |
| `InputRouterClass.InputRouter.StartableOf` | crates/roost-client-core/src/terminal/input/router/mod.rs:298-317 | exactly the oldest unsent batches of a sending lane that the window of eight has room for |
| `InputRouterClass.InputRouter.Dispatch` | crates/roost-client-core/src/handle_input.rs:119-209 | hands over each startable batch once, oldest first, and marks it sent |
| `InputRouterClass.InputRouter.Settle` | crates/roost-client-core/src/terminal/input/router/settlement.rs:20-32 | says whether the batch was outstanding; afterwards it is outstanding nowhere, so a second result settles nothing, and every other batch is where it was |
| `InputRouterClass.InputRouter.HandleTerminalInput` | crates/roost-client-core/src/handle_input.rs:26-106 | the handler in place equals the step that the theorems are about |
| `InputRouterClass.InputRouter.HandleInputResult` | crates/roost-client-core/src/handle_input.rs:217-285 | the handler in place equals the step that the theorems are about, requeue and reclaim included |
| `InputRouterClass.InputRouter.HandleDirectResult` | crates/roost-client-core/src/handle_sync.rs:202-222 | a direct result settles only a batch that this carrier was handed |
| `ZipInspector.InspectZip` | native/windows/roost-win-helper.cpp:1875-1985 | accepts exactly the archives that read, in exact arithmetic, into entries that agree with the manifest, and returns those entries |
| `ZipInspector.AcceptedArchiveIsExact` | native/windows/roost-win-helper.cpp:1875-1985 | for any well-indexed manifest, acceptance means: directory named by the last end record and filled exactly, all data in the file, none shared, as many files as the manifest, and the extracted size is the manifest's |
| `ZipArchive.InspectDocument` | native/windows/roost-win-helper.cpp:1746-1985 | from the manifest's text and the archive's bytes: accepts exactly when the text is a list of items and the archive is extractable for them, read with the helper's own names, and returns its entries |
| `ZipArchive.InspectArchive` | native/windows/roost-win-helper.cpp:1746-1985 | the same from the items: accepts exactly the extractable archives |
| `ZipArchive.ExtractableIsExact` | native/windows/roost-win-helper.cpp:1746-1985 | what acceptance means: directory named by the last end record and filled exactly, all data in the file and none shared, each item exactly one file entry of its size and no other files, extracted size the total of the items and at most 64 GiB |
| `ZipArchive.AgreeIff` | native/windows/roost-win-helper.cpp:1964-1983 | agreement through the index, the directory set and the counters is agreement with the items themselves, said without them |
| `ZipArchive.ReadItemList` | native/windows/roost-win-helper.cpp:1755-1764 | the loop over the JSON items equals its specification: every item an object of exactly a path, a size and a digest, in order |
| `ZipInspector.ParseManifest` | native/windows/roost-win-helper.cpp:1746-1775 | accepts if and only if all items are plain files at distinct paths and at most 64 GiB in all; then files, index, parent directories and total are exactly theirs |
| `ZipInspector.CollectParents` | native/windows/roost-win-helper.cpp:1766-1770 | exactly the directories on the way to a file |
| `ZipInspector.ReadEntries` | native/windows/roost-win-helper.cpp:1908-1979 | the pass over the directory stops exactly when no clean reading exists, else gathers it with its ranges and count |
| `ZipInspector.NeighboursAreApart` | native/windows/roost-win-helper.cpp:1980-1983 | decides whether sorted neighbours overlap |
| `ZipInspector.FindEndRecord` | native/windows/roost-win-helper.cpp:1875-1885 | the downward search equals its specification |
| `ZipInspector.FindZip64Field` | native/windows/roost-win-helper.cpp:1847-1873 | the walk over extra fields equals its specification |
| `ZipInspector.ReadCentralEntry` | native/windows/roost-win-helper.cpp:1914-1962 | reading one entry with its loops equals its specification |
| `ZipInspector.CleanAgreeIff` | native/windows/roost-win-helper.cpp:1977-1983 | for distinct known entries, the file count and the sorted-neighbour check decide agreement exactly |
| `ZipMatching.CountDecidesPresence` | native/windows/roost-win-helper.cpp:1964-1979 | distinct known files are all of the manifest's if and only if there are as many |
| `ZipMatching.NeighbourCheckIff` | native/windows/roost-win-helper.cpp:1980-1983 | comparing neighbours after sorting succeeds if and only if no two ranges overlap |
| `ZipMatching.RangesApartIff` | native/windows/roost-win-helper.cpp:1961-1983 | the collected ranges are apart if and only if no two entries share a data byte |
| `ZipMatching.AgreementIsABijection` | native/windows/roost-win-helper.cpp:1964-1979 | each manifest file is exactly one entry, of its size, and the counts agree |
| `ZipMatching.AgreementConservesSize` | native/windows/roost-win-helper.cpp:1964-1979 | the entries' uncompressed sizes add up to the manifest's total |
| `ZipProofs.MachineArithmeticIsExact` | native/windows/roost-win-helper.cpp:1847-1963 | whatever the bytes, reading with offsets modulo 2^64 is reading with exact offsets: no wrap-around changes anything |
| `ZipProofs.EndRecordIsTheLast` | native/windows/roost-win-helper.cpp:1875-1885 | the record found is the last candidate in reach, and none is found only if there is none |
| `ZipProofs.DirectoryIsConsumed` | native/windows/roost-win-helper.cpp:1912-1979 | the promised number of records follow each other and end exactly where the directory ends |
| `ZipProofs.ReadArchiveIsSound` | native/windows/roost-win-helper.cpp:1875-1979 | a readable archive's directory lies before the last end record, holds its headers and nothing else, and all data lies in the file |
| `Utf.TextSurvives` | native/windows/roost-win-helper.cpp:55-76 | UTF-16 to UTF-8 and back is the identity wherever the first succeeds within the size limit |
| `Utf.BytesSurvive` | native/windows/roost-win-helper.cpp:55-76 | UTF-8 to UTF-16 and back is the identity wherever the first succeeds |
| `Utf.DecodesBack` | native/windows/roost-win-helper.cpp:1516-1533 | the encoder's bytes decode to the same scalar values |
| `Utf.EncodesBack` | native/windows/roost-win-helper.cpp:1516-1533 | valid UTF-8 is the encoding of what it decodes to: no overlong form, surrogate or value past 0x10ffff is valid |
| `Json.QuoteBytes` | native/windows/roost-win-helper.cpp:150-169 | the printing loop writes the quoted form of the bytes |
| `JsonProofs.UnescapesBack` | native/windows/roost-win-helper.cpp:150-169 | unescaping undoes escaping on every byte string and stops at the closing quote |
| `JsonProofs.StringReadsBackIff` | native/windows/roost-win-helper.cpp:1569-1612 | a printed string reads back if and only if it is UTF-8 |
| `JsonProofs.UnicodeEscapeReadsBack` | native/windows/roost-win-helper.cpp:1556-1610 | the `\u` escapes of every scalar value, one or a surrogate pair, give its UTF-8 bytes |
| `JsonProofs.NumberReadsBackIff` | native/windows/roost-win-helper.cpp:1646-1657 | a decimal number reads back if it fits 64 bits and is refused, not truncated, if it does not |
| `JsonProofs.DocumentReadsBack` | native/windows/roost-win-helper.cpp:1613-1658 | a printed document of strings, numbers, lists and records reads as its value and stops where it ends, whatever follows |
| `JsonProofs.PrintedParses` | native/windows/roost-win-helper.cpp:1533-1661 | every printable document parses back to its value |
| `JsonParser.Parser.ParseString` | native/windows/roost-win-helper.cpp:1569-1612 | the string parser at its position reads exactly what the specification reads of the unread text |
| `JsonParser.Parser.ParseNumber` | native/windows/roost-win-helper.cpp:1646-1657 | the digit loop with its overflow check equals its specification |
| `JsonParser.Parser.ParseValue` | native/windows/roost-win-helper.cpp:1613-1658 | the recursive parser equals its specification, position included |
| `JsonParser.Parser.ParseItems` | native/windows/roost-win-helper.cpp:1630-1636 | the list loop equals its specification |
| `JsonParser.Parser.ParseMembers` | native/windows/roost-win-helper.cpp:1619-1629 | the object loop, repeated keys refused, equals its specification |
| `JsonParser.Parser.ParseDocument` | native/windows/roost-win-helper.cpp:1536-1541 | a whole document and nothing behind it |
| `ArchivePath.NormalizeArchivePath` | native/windows/roost-win-helper.cpp:1689-1714 | the normaliser with its segment loop equals its specification |
| `ArchivePath.CheckSegments` | native/windows/roost-win-helper.cpp:1700-1711 | walking from slash to slash checks exactly the segments |
| `ArchivePath.NormalizeIsIdempotent` | native/windows/roost-win-helper.cpp:1689-1714 | a normal path is its own normal form, has no backslash and no longer names a directory |
| `SecurityTree.Snapshot` | native/windows/roost-win-helper.cpp:2181-2199 | the printing loop gives the snapshot's text or refuses, as its specification says |
| `SecurityTree.PrintEntry` | native/windows/roost-win-helper.cpp:2189-2192 | one entry's text is the printed record of its four members |
| `SecurityTree.SnapshotPrintsItsDocument` | native/windows/roost-win-helper.cpp:2181-2199 | a snapshot's text is the printed form of its document |
| `SecurityTree.ReadValues` | native/windows/roost-win-helper.cpp:2223-2265 | the reading loop with its set of seen paths equals its specification |
| `SecurityTreeProofs.SnapshotReadsBack` | native/windows/roost-win-helper.cpp:2181-2271 | reading a snapshot's text gives the same objects in order, or the same refusal, as checking the walked tree itself |
| `SecurityTreeProofs.MatchTree` | native/windows/roost-win-helper.cpp:2275-2304 | succeeds if and only if there are as many objects at distinct paths and each expected one is there with its kind and link count; then gives where |
| `SecurityTreeProofs.MatchIsABijection` | native/windows/roost-win-helper.cpp:2275-2304 | a match of distinct expectations uses every object found exactly once |
| `SecurityTreeProofs.UnchangedTreeMatches` | native/windows/roost-win-helper.cpp:2181-2304 | a tree unchanged since its snapshot matches it, each object itself, with its descriptor and its path up to slashes |
| `SecurityTreeProofs.DepthIsAlwaysZero` | native/windows/roost-win-helper.cpp:2300-2305 | the depth that restoring sorts by is zero for every object |
| `SecurityTreeProofs.RestoreOrderIsSnapshotOrder` | native/windows/roost-win-helper.cpp:2300-2310 | so the pairs of depth and place are sorted as they stand, and objects are restored in the snapshot's own order |
| `CommandLine.QuoteArg` | native/windows/roost-win-helper.cpp:4414-4433 | the quoting loop writes the quoted form of the argument |
| `CommandLine.JoinArgs` | native/windows/roost-win-helper.cpp:5629-5639 | the loop joins the quoted arguments with single spaces |
| `CommandLine.SplitsBackIff` | native/windows/roost-win-helper.cpp:5482-5491 | Windows splits the line into the same arguments if and only if none holds a NUL and the program name holds no quote and is not both quoted and ended by a backslash; with or without the paired-quote rule |
| `CommandLine.ArgumentsReadBack` | native/windows/roost-win-helper.cpp:4414-4433 | every list of later arguments reads back, whatever its characters |
| `CommandLine.ProgramNameReadsBackIff` | native/windows/roost-win-helper.cpp:4414-4433 | exactly which program names read back |
| `CommandLine.TrailingBackslashIsDoubled` | native/windows/roost-win-helper.cpp:4414-4433 | a program name that does not read back |
| `StringBlocks.MultiString` | native/windows/roost-win-helper.cpp:5572-5582 | refuses if and only if an item is empty or holds a NUL, else writes the block |
| `StringBlocks.ReadItems` | native/windows/roost-win-helper.cpp:5464-5466 | the reading loop reads items up to an empty one |
| `StringBlocks.BlockReadsBack` | native/windows/roost-win-helper.cpp:5464-5582 | a stored list reads back as itself, whatever follows it in the buffer |
| `StringBlocks.EnvironmentBlock` | native/windows/roost-win-helper.cpp:6555-6575 | refuses if and only if a key or value cannot be set or two keys agree in lower case, else writes the block of the sorted variables |
| `StringBlocks.EnvironmentReadsBack` | native/windows/roost-win-helper.cpp:6555-6575 | the block decodes to a permutation of the variables, strictly increasing in lower-cased key |
| `StringBlocks.SortOrders` | native/windows/roost-win-helper.cpp:6564-6564 | sorting variables with distinct lower-cased keys puts them in strictly increasing order |
| `JobProofs.ConversationsStayBounded` | crates/roost-agent-tools/src/jobs.rs:101-210 | in every reachable state a conversation has at most 15 running and 100 settled jobs, all numbered below the next number |
| `JobProofs.EachJobIsReportedOnce` | crates/roost-agent-tools/src/jobs.rs:137-181 | over every run no job is reported twice |
| `JobProofs.RunningLeavesOnly` | crates/roost-agent-tools/src/jobs.rs:137-210 | a running job leaves only by settling or by its conversation's close; eviction never takes it |
| `JobProofs.TerminalRecordsNeverChange` | crates/roost-agent-tools/src/jobs.rs:137-181 | however a run goes on, a terminal record is kept as it settled or not at all |
| `JobProofs.SettleKeepsTheNewest` | crates/roost-agent-tools/src/jobs.rs:323-334 | after each settle at most 100 settled jobs remain, every dropped one is numbered below every kept one, and no other running job changes |
| `JobProofs.PruneKeepsTheNewest` | crates/roost-agent-tools/src/jobs.rs:323-334 | pruning keeps all running jobs and exactly the highest hundred settled ones, or all |
| `JobProofs.JobIdsAreUniqueIff` | crates/roost-agent-tools/src/jobs.rs:101-133 | over a run every job id names one job if and only if no closed or evicted conversation starts again |
| `JobProofs.EachIdIsReportedOnce` | crates/roost-agent-tools/src/jobs.rs:137-181 | in such a run no job id is reported twice |
| `JobProofs.LateOutcomeSettlesAnotherJob` | crates/roost-agent-tools/src/jobs.rs:137-181 | a run in which a closed conversation's job settles the next one of that id |
| `Jobs.JobIdReadsBackIff` | crates/roost-agent-tools/src/jobs.rs:336-342 | exactly the 64-bit numbers come back from their printed job id |
| `JobRegistryClass.PruneSettled` | crates/roost-agent-tools/src/jobs.rs:323-334 | the pruning loop equals its specification |
| `JobRegistryClass.JobRegistry.Register` | crates/roost-agent-tools/src/jobs.rs:101-133 | registering in place equals its specification, the refusal at 15 included |
| `JobRegistryClass.JobRegistry.Settle` | crates/roost-agent-tools/src/jobs.rs:137-181 | settling in place equals its specification and sends at most the one report |
| `JobRegistryClass.JobRegistry.CancelRunning` | crates/roost-agent-tools/src/jobs.rs:184-189 | cancels the tokens of exactly the running jobs |
| `JobRegistryClass.JobRegistry.CloseConversation` | crates/roost-agent-tools/src/jobs.rs:198-203 | drops the conversation and cancels its running jobs |
| `JobRegistryClass.JobRegistry.EvictIdle` | crates/roost-agent-tools/src/jobs.rs:206-210 | what stays is unchanged; what goes was idle with nothing running, and no idle conversation with nothing running stays |
| `BashCapture.NothingIsLost` | crates/roost-agent-tools/src/bash_capture.rs:37-112 | after any pushes the spill followed by the memory is all output in order, the memory holds its last bytes up to the limit, and a spill exists if and only if the total passed the limit |
| `BashCapture.Buffer.PushChunk` | crates/roost-agent-tools/src/bash_capture.rs:57-78 | one push in place equals its specification |
| `BashCapture.Buffer.Append` | crates/roost-agent-tools/src/bash_capture.rs:80-112 | an append creates the file at the first byte and not before |
| `Calendar.CivilIsCorrect` | crates/roost-cli/src/utc_clock.rs:69-90 | every day number maps to a valid date that is that many days from the epoch |
| `Calendar.CivilFollowsTheCalendar` | crates/roost-cli/src/utc_clock.rs:69-90 | day 0 is 1970-01-01 and each next day is the calendar successor |
| `Calendar.CivilIsAnOrderedBijection` | crates/roost-cli/src/utc_clock.rs:69-90 | a strictly increasing bijection between days and valid dates |
| `Calendar.ImplementationsAgree` | crates/roost-bench/src/run.rs:297-314 | the independent implementation gives the same date on every day |
| `Calendar.StampKeepsTheSecond` | crates/roost-cli/src/utc_clock.rs:50-62 | a stamp's fields are in range and give back the second of the instant, before and after the epoch |
| `Calendar.StampsAgree` | crates/roost-bench/src/run.rs:297-321 | both tools name the same second of every instant from the epoch on |
| `ModuleGraph.DeclaredModules` | xtask/src/unreached_module.rs:194-223 | the loop with its override variable equals its specification |
| `ModuleGraph.DeclaredIff` | xtask/src/unreached_module.rs:194-223 | a module is declared if and only if some `mod` line names it and the file that line resolves to exists |
| `ModuleGraph.GraphFrom` | xtask/src/unreached_module.rs:110-169 | the walk ends with the one walk of the declarations, first declaration first; it reaches only files with a chain of declarations from a crate root and, when each file has one directory, all of them; nothing for an empty tree |
| `ModuleGraph.SecondDirectoryIsMissed` | xtask/src/unreached_module.rs:145-167 | on a tree with a file in two directories the walk reaches two files, and not a third that a chain reaches |
| `ModuleGraph.MissedByTheCode` | xtask/src/unreached_module.rs:110-169 | the code returns exactly those two files on that tree |
| `Walks.WalkFrom` | xtask/src/unreached_module.rs:145-167 | over any declarations within a finite set of files the queue loop ends with the walk, only chained files reached and, with one directory per file, all of them |
| `Walks.WalkIsSound` | xtask/src/unreached_module.rs:145-167 | every file reached has a chain of declarations from a root |
| `Walks.WalkIsComplete` | xtask/src/unreached_module.rs:145-167 | with one directory per file the reached set is exactly the transitive closure |
| `Walks.WalkIsUnique` | xtask/src/unreached_module.rs:145-167 | roots and declarations determine the walk: the files in order, each with the directory of its first declaration |
| `Walks.WalkIsCompleteIff` | xtask/src/unreached_module.rs:145-167 | the walk reaches every file a chain reaches if and only if the declarations it passed over lead to no other file |
| `Walks.SingleDirectoriesIff` | xtask/src/unreached_module.rs:145-167 | each file has one directory, and then the walk reaches all of them, if and only if the walk comes across no declaration of a visited file with another directory |
| `FindPaging.ChainsAreTilings` | crates/roost-client-core/src/search.rs:102-134 | the checks accept exactly the bounded, abutting chains whose matches lie inside; the check that the cursor decreases is implied |
| `FindPaging.PagesTile` | crates/roost-client-core/src/search.rs:102-134 | the pages tile one interval: each row of it in exactly one page, no other row in any |
| `FindPaging.PagingEnds` | crates/roost-client-core/src/search.rs:120-134 | the cursor strictly decreases and a chain is at most one page longer than the rows below its first end |
| `FindPaging.MatchesAreInOnePage` | crates/roost-client-core/src/search.rs:136-156 | every fenced match keeps its row, carries the epoch and lies in its own page's window only |

## Left out

- Win32 itself: security identifiers, ACL construction, volumes and file identities, signatures, hashing, named pipes, job objects and processes. Descriptors are opaque values; a staged copy is one atomic step and its leftover temporary files are not modelled.
- `commit` as a barrier against a later promote or restore: it depends on whether the prior descriptor equals the committed one, which is not modelled.
- Real extraction, the external tar program and live directory scans.
- InspectDocument: the decoding of code page 437 is a parameter, and so are case folding and the alphabet; all refusals are one value and the error messages are not modelled.
- InspectArchive: case folding, the alphabet and code page 437 are parameters, and refusals carry no message.
- InspectZip: how names are decoded is a parameter here; `InspectArchive` plugs the helper's own in.
- ParseManifest: the items arrive with their three fields read; `InspectDocument` reads them from the JSON text. A digest's text is checked for its form only.
- AcceptedArchiveIsExact: speaks of a manifest alone; `ExtractableIsExact` adds the size limit and the one-to-one match with the items.
- ParseDocument: refusals carry no message.
- Snapshot: case folding and the alphabet are Windows' own and are parameters.
- NormalizeArchivePath: case folding and the alphabet are Windows' own and are parameters.
- EnvironmentBlock: case folding is a parameter, and sorting is an insertion sort with the specification of the library's.
- The edit language (`hashline`): tags, seen lines and the effect of operations are parameters of the edit host.
- Clocks: deadlines, idle times and expiries appear as the sets of things that are due. Pruning of expired checkpoints and file timestamps are not modelled.
- RestoreReportsExactly: the report's lists are compared as sets, because the order of paths is the operating system's and paths are identities here.
- Path aliasing, relative paths and symbolic links: paths are identities. I/O errors of capture, restore points and manifests are not modelled.
- The route-claim protocol: claim ids, revisions and attempt counts are abstracted to the phase and epoch changes they make, which may happen at any time. Direct-carrier staging and terminal replicas are not modelled.
- NoBatchIsWrittenTwice: its condition is exact for the safety of what waits to be sent (`AlwaysSafeToSendIff`); whether bytes are then written twice also depends on the worker.
- What applying a Sync frame does to the store beyond its place in the order, and the redial timers.
- DeclaredModules: lines come recognised as path attributes, `mod` declarations or others, because scanning them would only add easy members.
- GraphFrom: skipping `src/bin` is not modelled.
- JobRegistry: the `job` tool's texts, the 64-bit overflow of job numbers and the channel's delivery are not modelled.
- The printed form of dates, and years outside what the machine's 64-bit integers hold.
- The rest of the repository: CLI dispatch, servers, browser and benchmark code, linters other than the module walk, and small helpers that would only add easy members.
