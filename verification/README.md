# Verified models of the GrokBuild desktop client

The main process of this Electron client keeps its state in hand-written state machines. This
project models them in Dafny and proves what they keep over every input, run or interleaving.
Each module follows one component; values and functions say what a step does, classes and methods
carry it out field by field and loop by loop as the source does, and lemmas state what the steps
guarantee.

| module | component |
|---|---|
| `Activity`, `ScheduleEpochs`, `ActivityProtection`, `ActivityAnswer`, `ActivityLimits`, `ActivityCalls`, `ActivityViews` | the reducer over a session's activity stream: scheduler epochs, tombstones, capped maps, the safe-to-evict answer |
| `Lists`, `Layout`, `Normalizing`, `LayoutSteps`, `LayoutRuns`, `LayoutChoices`, `LayoutEdits`, `LayoutUndo`, `LayoutDrift`, `Workspace` | projects, sessions, pins, settled sessions and selections, and the rollback of failed removals |
| `Merge`, `MergeContents`, `Migration` | importing sessions and projects from the Swift client |
| `Quiescence`, `Release`, `Ledger` | the exclusion protocol: counters, lock sets and the update-quiescence token |
| `Roster` | the lock-file protocol of the saved-agent roster between processes |
| `Pool`, `Delivery` | eviction of live clients; delivery of worker events |
| `Terminal`, `Catalog` | retained terminal output; the two-map agent catalog |
| `Base64`, `Attachments`, `Framing`, `Tokenizer` | payload codec, prompt limits, line framing, command-line splitting |

`dafny verify dfyconfig.toml` checks everything.

## Where the code is narrower than it reads

- The byte-side image check reads text signatures through Node's `ascii` decoding, which clears the
  high bit of every byte. It therefore accepts some GIF and WebP headers that the encoded-side check
  refuses. `Attachments.SignatureChecksAgree` gives the exact condition, `SignatureChecksDiffer` an
  input, and `ConsumedPromptFitsWire` what it means for a composed prompt.
- The update schema only lets a full schedule listing through with source `legacy`
  (src/shared/acp/sessionActivityUpdates.ts:84-91). What the running program can deliver is covered by
  `ScheduleEpochs.OnlySurvivorsCount`, for every kind of typed update; `HighestClockWins` and
  `DeliveryOrderDoesNotMatter` hold of the reducer itself, which would take typed listings.
- Until a generation has been seen, revisions are not ordered at all.
  `ScheduleEpochs.StaleRevisionIsTakenExactly` gives the exact condition for a single update,
  `RevisionsAloneAreNotOrdered` what a whole run then shows, and `LowerRevisionOverwrites` two updates of
  one schedule of which the one with the lower revision is shown.
- The protection that background tasks have does not carry over to workflows. A finished workflow
  that is turned away leaves no trace; a stale clear can then bury its identity in the projection
  alone, and its revival goes unseen. `ActivityProtection.LiveWorkflowCanBeLost` is such a run, made of
  typed updates with revisions, the only workflow updates the parser produces
  (src/shared/acp/sessionActivityUpdates.ts:291-313); `ProtectionIsKeptExactly` and
  `WorkflowsAreProtectedExactly` say exactly when protection is lost.
- When more goals have ended than are remembered, an update that ends the current goal is ignored: the goal
  stays on show, and the session is kept from eviction although nothing is live and no flag is up
  (`ActivityAnswer.FinishedGoalCanStand`). `ActivityAnswer.QuietExactly` says exactly which runs leave
  nothing finished standing, and within the limits the answer is exactly right
  (`ActivityLimits.WithinLimitsTheAnswerIsRight`).
- The stdout cap bounds the buffer before lines are taken out of it. When more than the cap is
  buffered at once, whether the stream passes depends on how it was cut, however short its lines are
  (`Framing.CapDependsOnTheCut`, `ShortLinesCanOverflow`; `ChunkingIsInvisible` is the exact condition).
- A command line is trimmed before it is split, so a line of the grammar is refused exactly when its
  last piece is an escaped space (`Tokenizer.SpelledLineIsRead`).
- Settling a pinned session when the settled list is full throws, but has already removed the pin
  (`LayoutRuns.RefusedSettleLosesThePin`); no other failed settle changes anything
  (`RefusedSettleIsHarmlessExactly`).
- Neither rollback undoes a selection remembered for a different project that the selection had
  moved to (`LayoutUndo.FailedCloseIsUndone`, `FailedRemovalIsUndone`), and a session that comes back does
  so as it was recorded, without what its events changed before it was taken out. While a close or a
  removal is under way only session records can change, as every other operation is refused
  (src/main/AppController.ts:3839-3853); whatever they do, the layout is restored
  (`LayoutDrift.FailedCloseRestoresTheLayout`, `FailedRemovalRestoresTheLayout`).
- A roster lock without a complete record is never taken away, so one whose owner is gone stops every
  later acquisition (`Roster.IncompleteRecordBlocksForever`, `LeftLockGoesExactly`).
- A merge can leave no project selected although there are projects (`Merge.MergeCanLeaveNothingSelected`).
  `MergeIsConsistentExactly` gives the condition on the state and the import; normalizing the result,
  as the controller does, repairs it and changes no list (`MergeKeepsTheLayout`).

## Model

| member | source | states |
|---|---|---|
| ScheduleEpochs.OnlySurvivorsCount | src/main/acp/SessionActivityProjection.ts:414-466 | When every typed scheduler update carries generation and revision and view numbers last, the schedules shown after any run are exactly those obtained by carrying out, with no check at all, the updates of the highest generation whose revision exceeded every earlier one of that generation; legacy and all other updates may come anywhere. |
| ScheduleEpochs.HighestClockWins | src/main/acp/SessionActivityProjection.ts:137-167 | If the typed updates are full listings, the one with the highest (generation, revision) is what is shown, wherever it arrived. |
| ScheduleEpochs.DeliveryOrderDoesNotMatter | src/main/acp/SessionActivityProjection.ts:137-167 | Any two deliveries of the same updates in different orders show the same schedules. |
| ScheduleEpochs.RevisionsAloneAreNotOrdered | src/main/acp/SessionActivityProjection.ts:442-465 | A run whose typed updates carry revisions but no generation, with any other updates in between, shows all typed updates carried out in the order of arrival, whatever their revisions. |
| ScheduleEpochs.LowerRevisionOverwrites | src/main/acp/SessionActivityProjection.ts:442-465 | Of two updates of one schedule without a generation, what the second brings is shown although its revision is lower. |
| ScheduleEpochs.StaleRevisionIsTakenExactly | src/main/acp/SessionActivityProjection.ts:442-465 | An update whose revision is not above the stored one is accepted if and only if no generation has been seen or it brings a higher one. |
| ScheduleEpochs.ChangeWritesTheTable | src/main/acp/SessionActivityProjection.ts:137-217 | An accepted typed replace, upsert or delete does to the schedules what it does to a plain table without view numbers, clocks or sources. |
| ActivityProtection.CoverageIsKeptExactly | src/main/acp/SessionActivityProjection.ts:219-245 | One background update keeps the agreement with an uncapped reference if and only if it does not turn a live task away for want of a view number. |
| ActivityProtection.LiveTaskIsProtected | src/main/acp/SessionActivityProjection.ts:362-373 | While view numbers last, whenever the uncapped reference knows an unfinished background task the capped projection reports live protection work. |
| ActivityProtection.ExhaustionHidesATask | src/main/acp/SessionActivityProjection.ts:229-233 | Once view numbers have run out a new running task leaves the answer at "nothing live". |
| ActivityProtection.FlagsAreNeverCleared | src/main/acp/SessionActivityProjection.ts:219-275 | The background, workflow and goal overflow flags stay set through any later run. |
| ActivityProtection.ClearBuriesUnlessRefused | src/main/acp/SessionActivityProjection.ts:246-258 | A workflow clear makes its identity unshowable for good if and only if it is neither a legacy clear of a typed workflow nor stale. |
| ActivityProtection.ClearedWorkflowNeverReturns | src/main/acp/SessionActivityProjection.ts:246-303 | From any state, after an effective clear the identity is in no later projection, including after the tombstone set has saturated. |
| ActivityProtection.EndedGoalNeverReturns | src/main/acp/SessionActivityProjection.ts:304-339 | A goal identity that was cleared or replaced is never the current goal again, through any later run. |
| ActivityProtection.ElapsedNeverGoesBack | src/main/acp/SessionActivityProjection.ts:304-339 | Through any run, whatever came in between, the elapsed time of a goal that is current before and after has not gone back. |
| ActivityProtection.ProtectionIsKeptExactly | src/main/acp/SessionActivityProjection.ts:246-303 | One workflow update keeps every workflow that the uncapped reference knows to be unfinished shown as such or flagged, if and only if it loses none: the reference takes an unfinished one that the projection refuses, has buried or has no number for, or keeps one that the projection ends. |
| ActivityProtection.WorkflowsAreProtectedExactly | src/main/acp/SessionActivityProjection.ts:246-303 | Over a whole run, all unfinished workflows are protected at every point if and only if no update loses one. |
| ActivityProtection.LiveWorkflowIsProtected | src/main/acp/SessionActivityProjection.ts:362-373 | In a run that loses none, a session with a workflow that the uncapped reference knows to be unfinished is never reported safe to evict. |
| ActivityProtection.MirrorIsKeptExactly | src/main/acp/SessionActivityProjection.ts:246-303 | One update keeps the projection showing exactly what the uncapped reference knows, if and only if it does not silently drop something that changes the reference. |
| ActivityProtection.InStepExactly | src/main/acp/SessionActivityProjection.ts:246-303 | The projection is in step with the reference at every point of a run if and only if no update makes it fall behind. |
| ActivityProtection.KeepingUpLosesNothing | src/main/acp/SessionActivityProjection.ts:246-303 | A run in which nothing that is news to the reference is dropped loses no workflow. |
| ActivityProtection.LiveWorkflowCanBeLost | src/main/acp/SessionActivityProjection.ts:246-303 | A run of 131 typed updates with revisions after which the reference knows an active workflow and the session is reported safe to evict, with view numbers to spare. |
| ActivityAnswer.SchedulesAreExact | src/main/acp/SessionActivityProjection.ts:137-217 | While view numbers last and typed updates carry clocks, schedules are shown or their overflow is flagged exactly when the updates alone leave some: the legacy table replayed without numbers or limits on calls, or, once there is a typed update, the surviving updates of the last epoch. |
| ActivityAnswer.LiveScheduleIsProtected | src/main/acp/SessionActivityProjection.ts:362-373 | A schedule that the updates leave keeps the session from eviction. |
| ActivityAnswer.TiedHolds | src/main/acp/SessionActivityProjection.ts:304-339 | Until the ended goals no longer fit, the goal shown is the one last pursued, with its objective, status, phase, counters and longest elapsed time, and the buried goals are those that were ended or replaced. |
| ActivityAnswer.GoalProtectionIsKeptExactly | src/main/acp/SessionActivityProjection.ts:304-339 | One goal update keeps a live goal protected if and only if it is not a live update that names no goal and reaches a projection that has forgotten which one it was. |
| ActivityAnswer.GoalsAreProtectedExactly | src/main/acp/SessionActivityProjection.ts:304-339 | Over a whole run, a goal that is pursued is protected at every point if and only if no update loses one. |
| ActivityAnswer.LiveGoalIsProtected | src/main/acp/SessionActivityProjection.ts:362-373 | When goal updates name their goal, as the parser makes them (src/shared/acp/sessionActivityUpdates.ts:349-381), a goal last reported active or paused keeps the session from eviction, with no limit on the run. |
| ActivityAnswer.QuietIsKeptExactly | src/main/acp/SessionActivityProjection.ts:246-303 | One workflow update leaves nothing on show as unfinished that the uncapped reference knows to be over, if and only if it leaves none standing. |
| ActivityAnswer.GoalQuietIsKeptExactly | src/main/acp/SessionActivityProjection.ts:304-339 | The same for a goal update: a goal that ended is left standing exactly when the ended goals no longer fit. |
| ActivityAnswer.QuietExactly | src/main/acp/SessionActivityProjection.ts:246-339 | Over a whole run, all that is shown unfinished is unfinished at every point if and only if no update leaves anything standing. |
| ActivityAnswer.AnswerIsExact | src/main/acp/SessionActivityProjection.ts:362-373 | In a run that loses nothing and leaves nothing standing, the session is reported as live if and only if a schedule, a task, a workflow or a goal is live by the updates alone, or a flag is up. |
| ActivityAnswer.FinishedGoalCanStand | src/main/acp/SessionActivityProjection.ts:304-339 | A run of goal updates after which nothing is live and no flag is up and the session is still reported as live. |
| ActivityLimits.WithinLimitsTheAnswerIsRight | src/main/acp/SessionActivityProjection.ts:362-373 | A run whose tasks, workflows, cleared workflows and ended goals fit raises no flag, and while view numbers last and typed schedules carry clocks the answer is live exactly when the updates leave live work. |
| ActivityLimits.TaskFlagIsExact | src/main/acp/SessionActivityProjection.ts:219-245 | The tasks shown are the first 128 reported, and the background flag is up if and only if an unfinished task was reported that is not among them. |
| ActivityCalls.CallNamesTheSchedule | src/main/acp/SessionActivityProjection.ts:112-135 | A scheduler call, then any updates that leave it alone, then its notification: the schedule has the title of the call unless the notification brings its own, and the rule of the notification, else of the call; the call is no longer pending. |
| ActivityCalls.CallRemovesTheSchedule | src/main/acp/SessionActivityProjection.ts:127-133 | A call that asks for the removal of a schedule takes it away when it ends, whatever came between. |
| ActivityViews.ViewsNeverCollide | src/main/acp/SessionActivityProjection.ts:468-491 | In every reachable state no two schedules, tasks or workflows shown have the same number. |
| ActivityViews.AlwaysTidy | src/main/acp/SessionActivityProjection.ts:468-491 | In every reachable state no optional text shown is empty and no count passes its bound. |
| Activity.FillReplacement | src/main/acp/SessionActivityProjection.ts:143-163 | The listing loop reuses the numbers of known schedules, takes fresh ones for the others in order and stops when numbers run out. |
| Activity.NeedsAreEnough | src/main/acp/SessionActivityProjection.ts:483-491 | A run uses at most as many view numbers as its updates can ask for. |
| Activity.SessionActivityProjection.Apply | src/main/acp/SessionActivityProjection.ts:375-387 | Applying an update moves the object's state to the reducer's result; the listing loop is carried out step by step, the other branches by the reducer as a function. |
| Layout.NormalizedIsConsistent | src/main/AppController.ts:4571-4624 | Whatever was loaded, normalizing yields unique ids, project lists that partition the sessions, valid distinct bounded disjoint pins and settled sessions, durable remembered sessions and a consistent selection. |
| Layout.NormalizingTwiceIsNormalizingOnce | src/main/AppController.ts:4571-4624 | Normalization is idempotent, with more than 2000 remembered selections too. |
| Normalizing.NormalizedSessions | src/main/AppController.ts:4571-4624 | A loaded session stays if and only if it is the first with its identifier and its project is there; the sessions stay in order. |
| Normalizing.NormalizedProjects | src/main/AppController.ts:4571-4624 | The first project of each identifier stays, in order and at its path; it lists its sessions in the order it had them, then those it did not list in session order. |
| Normalizing.NormalizedMarks | src/main/AppController.ts:4571-4624 | Pinned projects, pinned sessions and settled sessions are the valid ones, first occurrences in order up to their limits, without the settled ones that are pinned. |
| Normalizing.NormalizedSelection | src/main/AppController.ts:4571-4624 | A selected session that stays keeps the selection, with its project, which remembers it; otherwise a selected project that stays does; otherwise the first pinned project, or else the first project. |
| Normalizing.NormalizedRemembers | src/main/AppController.ts:4571-4624 | A remembered session that is still durable and of that project stays remembered, unless the selected session takes its place. |
| LayoutChoices.RememberedIsPreferred | src/main/AppController.ts:4641-4664 | In a consistent state what is remembered for a project is what it brings back. |
| LayoutChoices.CurrentIsPreferred | src/main/AppController.ts:4641-4664 | With nothing remembered, the project of the current session brings that one back. |
| LayoutChoices.LastUsedIsPreferred | src/main/AppController.ts:4641-4674 | Otherwise a project that has sessions brings back the one with the greatest timestamp, a durable one if it has any, and of equal timestamps the one listed last. |
| LayoutChoices.ChosenSessionComesBack | src/main/AppController.ts:836-912 | A durable session that was chosen comes back when its project is chosen again, after any run of choices but of another session of that project. |
| LayoutChoices.CloseLeadsOn | src/main/AppController.ts:1131-1144 | Closing the selected session leads to the one remembered for its project unless it is that one, else to the one of the project used last, else to the one used last of all, else to the project alone. |
| LayoutChoices.RemovalLeadsOn | src/main/AppController.ts:993-1011 | Removing the selected project leads to the first other project of the sidebar, there to the session remembered, else used last, else to none. |
| LayoutChoices.FirstOrderedIsFirst | src/main/AppController.ts:993-1011 | The next project is the first of the pinned projects followed by the others that is not left out. |
| LayoutChoices.SelectionElsewhereStays | src/main/AppController.ts:993-1144 | Closing or removing what is not selected leaves the selection alone. |
| LayoutChoices.DuplicateFollowsItsSource | src/main/AppController.ts:1208-1268 | A duplicate has its source's content, is idle and new, stands right after it in both lists, is selected, and nothing else moves. |
| LayoutEdits.EventsShow | src/main/AppController.ts:3081-3112 | After any events of running sessions each record shows the last event about it, the last session identifier named and a transcript if there ever was one; lists and selection stay. |
| LayoutEdits.DurableIsRemembered | src/main/AppController.ts:3081-3112 | The event that makes the selected session durable makes its project remember it. |
| LayoutEdits.PinsAreTheLastOnes | src/main/AppController.ts:1326-1348 | After any sessions are pinned one by one, the pins are the last five of the old ones and these, and these are not settled. |
| LayoutEdits.SettledInOrder | src/main/AppController.ts:1350-1376 | With room for them, sessions settled one by one are listed in that order and not pinned. |
| LayoutEdits.MarksAreUndone | src/main/AppController.ts:1326-1376 | Unpinning undoes a pin that had room, but for a settled mark; unsettling undoes a settling of a session that was not pinned. |
| LayoutEdits.PinnedProjectLeads | src/main/AppController.ts:1308-1324 | A project pinned or unpinned comes first in its group of the sidebar, and the order of all others stays. |
| LayoutEdits.MoveStepsPast | src/main/AppController.ts:1072-1081 | A moved project changes places with its neighbour in its group of the sidebar, or nothing changes at the edge; projects and all else stay. |
| LayoutEdits.AddingTwiceAddsOnce | src/main/AppController.ts:801-834 | A path added twice is added once, at the front if it is new; its project is selected both times. |
| LayoutEdits.CreateIsUndoneByClose | src/main/AppController.ts:866-899 | A created session is last, idle and selected, and closing it leaves all lists as they were. |
| LayoutRuns.EveryRunStaysConsistent | src/main/AppController.ts:801-1376 | From any loaded and normalized state, every run of adding, creating, duplicating, selecting, closing, removing, pinning, settling, moving and record updates stays consistent. |
| LayoutRuns.CreateKeeps | src/main/AppController.ts:866-899 | Creating a session keeps the layout consistent. |
| LayoutRuns.DuplicateKeeps | src/main/AppController.ts:1247-1258 | Placing a duplicate right after its source, in both lists, keeps the layout consistent. |
| LayoutRuns.CloseKeeps | src/main/AppController.ts:1123-1145 | Closing a session, with the move of the selection, keeps the layout consistent. |
| LayoutRuns.RemoveKeeps | src/main/AppController.ts:985-1011 | Removing a project, with the move of the selection to the next project in sidebar order, keeps the layout consistent. |
| LayoutRuns.UpdateKeeps | src/main/AppController.ts:3081-3112 | Replacing a session's record by a later one, and remembering the session if it is selected, keeps the layout consistent. |
| LayoutRuns.RefusedSettleIsHarmlessExactly | src/main/AppController.ts:1350-1376 | A settle that fails leaves the state alone if and only if it is not one of a pinned, settleable, unsettled session that finds the list full. |
| LayoutRuns.RefusedSettleLosesThePin | src/main/AppController.ts:1363-1368 | In a consistent state with the settled list full, settling a pinned session fails and takes its pin, and nothing else. |
| LayoutRuns.FullAndPinned | src/main/AppController.ts:1363-1368 | There is such a state. |
| LayoutUndo.RestoreTrackedOnDriftedList | src/main/AppController.ts:4147-4158 | For any current list, untracked ids keep their order and of the tracked ids exactly the original ones are there, each once. |
| LayoutUndo.RestoreTrackedExactly | src/main/AppController.ts:4147-4158 | If only tracked ids were taken out of a list of distinct ids, the original list comes back. |
| LayoutUndo.FailedCloseIsUndone | src/main/AppController.ts:4047-4096 | With nothing in between, undoing a close restores all lists in order and the selection, quiesces the session, and restores every remembered selection except one written for a different fallback project. |
| LayoutUndo.FailedRemovalIsUndone | src/main/AppController.ts:4098-4145 | The same for a project removal: each of its sessions comes back at its own place, quiesced. |
| LayoutUndo.UndoAfterDriftOnlyAdds | src/main/AppController.ts:4047-4096 | In any partitioned state that has the project and not the session, undoing a close adds the session, its listing and its pin or settled mark, keeps the partition, leaves the order of sessions, projects, other projects' lists, pins and settled sessions alone, and puts back the selection and the remembered session only where they are as the close left them. |
| LayoutDrift.FailedCloseRestoresTheLayout | src/main/AppController.ts:1105-1171 | Whatever session records change while the bindings are cleared and while the state is saved, a close that fails leaves a consistent layout with every list in its old order and the old selection; the closed session comes back idle with all that was recorded of it, all others as they are by then. |
| LayoutDrift.FailedRemovalRestoresTheLayout | src/main/AppController.ts:961-1040 | The same for a project removal and all its sessions. |
| LayoutDrift.RemovalUndoneAfterDriftOnlyAdds | src/main/AppController.ts:4098-4145 | In any state whatever, undoing a removal adds the project and its sessions and leaves the order of everything else alone; restored pins win over settled sessions, and another selection or remembered session stays. |
| LayoutDrift.UndoneRemovalIsPartitioned | src/main/AppController.ts:4098-4145 | The restored project lists exactly its restored sessions, and the partition holds. |
| Workspace.AppController.NormalizeLayoutState | src/main/AppController.ts:4571-4624 | The method computes the normalized state with the source's loops and leaves it consistent. |
| Workspace.AppController.CloseSession | src/main/AppController.ts:1105-1147 | The method moves the state to the closed one, keeps it consistent and hands out the rollback of the state before. |
| Workspace.AppController.RestoreClosedSession | src/main/AppController.ts:4047-4096 | The in-place restoration computes the undone state. |
| Workspace.AppController.RemoveProject | src/main/AppController.ts:961-1012 | The method moves the state to the removed one, keeps it consistent and hands out the rollback. |
| Workspace.AppController.RestoreRemovedProject | src/main/AppController.ts:4098-4145 | The in-place restoration with its splice loops computes the undone state. |
| Workspace.AppController.CreateSession | src/main/AppController.ts:866-899 | The method appends the session to both lists and selects it, and keeps the state consistent. |
| Workspace.AppController.UpdateSessionRecord | src/main/AppController.ts:3081-3112 | The record is replaced in place at its index, which is the updated state. |
| Workspace.AppController.SetProjectPinned | src/main/AppController.ts:1308-1324 | Pins at the front up to five; unpinning moves the project to the front; consistency is kept and every error leaves the state alone. |
| Workspace.AppController.SetSessionPinned | src/main/AppController.ts:1326-1348 | A pin at the limit pushes out the oldest one; a pinned session is not settled; consistency is kept. |
| Workspace.AppController.SetSessionSettled | src/main/AppController.ts:1350-1376 | A settled session is not pinned; consistency is kept in the error cases too. |
| Workspace.RestoreTrackedIds | src/main/AppController.ts:4147-4158 | The loop computes the restoration that the lemmas above are about. |
| Merge.MergeIsNonDestructive | src/main/migration/mergeSwiftState.ts:24-118 | For a consistent state and a well-formed import: current sessions are a prefix, current projects keep place, path and a prefix of their lists, pins and settled are unchanged, and each imported project and session is in exactly one counter. |
| Merge.SecondMergeAddsNothing | src/main/migration/mergeSwiftState.ts:19-23 | Merging the same import again adds no project and no session and leaves both lists as they are. |
| Merge.MergeIsConsistentExactly | src/main/migration/mergeSwiftState.ts:148-171 | The merged state is fully consistent if and only if there were projects before, or the import has none, or it selects one of its projects, or it selects a session that gets in. |
| Merge.MergeCanLeaveNothingSelected | src/main/migration/mergeSwiftState.ts:148-171 | An import of one project with no selection, merged into an empty state, is an input for which it is not. |
| Merge.MergeKeepsTheLayout | src/main/migration/mergeSwiftState.ts:120-176 | In every case partition, pins, remembered sessions and what is selected are valid, and normalizing makes the state fully consistent without changing a list. |
| Merge.OrderedIsTheImport | src/main/migration/mergeSwiftState.ts:66-75 | A well-formed import is processed in its own order, each session once. |
| Merge.MergeSwiftState | src/main/migration/mergeSwiftState.ts:24-179 | The loops over projects, sessions and remembered selections compute the merge the lemmas are about. |
| MergeContents.AddedSessionsAreImported | src/main/migration/mergeSwiftState.ts:76-118 | Every session beyond the current ones is an imported one with the same identifier, ACP session, transcript, timestamp and content, idle, under the project at its imported project's path, in the order of the import. |
| MergeContents.EverySessionArrives | src/main/migration/mergeSwiftState.ts:76-118 | Every imported session whose project is mapped and that collides with no other by identifier or ACP session is among them. |
| MergeContents.EveryProjectIsDecided | src/main/migration/mergeSwiftState.ts:38-60 | An imported project is mapped if and only if its path is known or its identifier is free, and a new one comes in at its path under its own identifier. |
| MergeContents.EveryProjectArrives | src/main/migration/mergeSwiftState.ts:38-60 | After the merge each mapped project's path is the path of a project of the state. |
| MergeContents.MapsToThePath | src/main/migration/mergeSwiftState.ts:38-60 | A mapped project is the one at the imported project's path. |
| MergeContents.ProjectCounts | src/main/migration/mergeSwiftState.ts:38-60 | The counters of matched, added and skipped projects are the numbers of imported projects at known paths, of new ones with free identifiers, and of the rest. |
| MergeContents.MergeSelects | src/main/migration/mergeSwiftState.ts:148-176 | A selected session that exists stays selected; otherwise the import's selection is taken over through the maps. |
| MergeContents.MergeRemembers | src/main/migration/mergeSwiftState.ts:120-147 | What is remembered stays; for a project with nothing remembered the first fitting entry of the import is taken over. |
| Migration.MigrationIsWellFormed | src/main/migration/SwiftStateMigrationService.ts:391-458 | Migrated sessions are unique, partitioned by their projects' lists and in list order, at most 10000; imported and skipped records add up to all records. |
| Migration.MigratedExactly | src/main/migration/SwiftStateMigrationService.ts:391-441 | A record becomes a session, with its identifier, project, ACP session, transcript, time and content, if and only if it is among the first 10000, its fields parse, its workspace is a known project and no earlier such record has its identifier. |
| Migration.MigratedInOrder | src/main/migration/SwiftStateMigrationService.ts:443-458 | Each project lists its sessions in the requested order, those not requested after them in record order. |
| Migration.MigrateSessions | src/main/migration/SwiftStateMigrationService.ts:391-458 | The record loop and the ordering loop over requested and record order compute that migration. |
| Quiescence.HeldTokenMeansQuiescent | src/main/AppController.ts:2088-2119 | In every reachable state a held token means no registered worker and no fork, retry, lifecycle lock, removal, destructive transaction, migration, connection start or lease; once granted no client is still stopping; both counters are the numbers of unreleased leases and transactions, and at most one destructive transaction is open. |
| Quiescence.ReleaseNeverClips | src/main/AppController.ts:2128-2132 | Every release lowers its counter by exactly one, so the floor at zero never matters. |
| Quiescence.StepKeeps | src/main/AppController.ts:3808-3870 | Each synchronous step of the concurrent operations keeps that invariant. |
| Release.GuardsAreExact | src/main/AppController.ts:2088-2252 | In every reachable state each guard passes if and only if nothing of what it excludes is under way, stated on the leases and transactions held; a memory change needs nothing beyond quiescence, and no project is being removed while no transaction is open. |
| Release.OperationsBeginExactly | src/main/AppController.ts:3808-3870 | The same for taking leases, closing, removing, duplicating, retrying and spawning a deferred worker. |
| Release.NothingIsStranded | src/main/AppController.ts:2088-2134 | From every reachable state releases and ends of what is under way alone lead to a state in which no lease, lock, transaction or token is held, and an update can be prepared. |
| Ledger.AccountIsExact | src/main/AppController.ts:2088-2134 | Lock sets, leases, transactions, connection starts, token and live client processes are at every point exactly what accepted steps have begun and not ended. |
| Ledger.UpdateWaitsForEverything | src/main/AppController.ts:2088-2119 | An update can be prepared if and only if everything begun has ended, client processes apart; once it is granted not one of those is left either. |
| Quiescence.AppController.AcquireUpdateQuiescence | src/main/AppController.ts:2088-2098 | Takes the token and unregisters all workers exactly when the guard holds, otherwise changes nothing. |
| Quiescence.AppController.AcquireIntegrationOperation | src/main/AppController.ts:2122-2125 | Adds one lease exactly when no state transaction is under way and the controller is not stopping. |
| Quiescence.AppController.ReleaseIntegrationOperation | src/main/AppController.ts:2126-2134 | Removes the lease and lowers the counter by one. |
| Quiescence.AppController.AcquireMemorySettingsTransaction | src/main/AppController.ts:2235-2252 | Opens the lease and the destructive transaction of a memory-settings change exactly when nothing else is going on. |
| Quiescence.AppController.CloseSession | src/main/AppController.ts:1083-1096 | Takes the saved-agent lease, the lifecycle lock and the destructive transaction together or not at all. |
| Quiescence.AppController.RemoveProject | src/main/AppController.ts:918-950 | Takes the saved-agent lease, the removal lock and the destructive transaction together or not at all. |
| Quiescence.AppController.ForkSession | src/main/AppController.ts:1270-1306 | Registers a fork exactly when its guards hold, with a saved-agent lease if one is to be had. |
| Quiescence.AppController.ApplyMigrationState | src/main/AppController.ts:700-728 | Starts a migration exactly when its guards hold. |
| Quiescence.AppController.EnsureConnected | src/main/AppController.ts:2650-2725 | Registers a worker and a connection start exactly when its guards hold. |
| Roster.EveryInterleavingIsSafe | src/main/agents/AgentRosterStore.ts:295-347 | Under every interleaving of stores, crashes, pid reuse and stale-lock recovery at most one live client is inside the lock, and what a reader sees ends one chain of writes each built from its immediate predecessor, one revision higher (zero after a recovery). |
| Roster.WritesWhatWasAsked | src/main/agents/AgentRosterStore.ts:295-347 | Under every interleaving, the roster a client puts in place has exactly the contents that client asked for, at the revision after the one it expected, replaces the roster of that revision and is logged as such; a recovery installs its replacement at revision zero. |
| Roster.WritesExactlyTheSuccessor | src/main/agents/AgentRosterStore.ts:314-341 | A commit prepares a write if and only if the roster can be read, the expected revision is current and has a successor, and the contents change or the file is in the old format. |
| Roster.UndisturbedCommit | src/main/agents/AgentRosterStore.ts:295-347 | A commit that nobody disturbs writes what it was asked exactly when it is due, and gives the lock back in either case. |
| Roster.UndisturbedRecovery | src/main/agents/AgentRosterStore.ts:251-293 | An invalid roster is moved aside and the replacement installed, under the same lock. |
| Roster.AbandonedCreateGivesBack | src/main/agents/AgentRosterStore.ts:547-607 | A failed creation takes its lock file with it, or leaves it with a record exactly if that was written. |
| Roster.MutualExclusion | src/main/agents/AgentRosterStore.ts:547-607 | Two clients inside the lock are the same client. |
| Roster.StepKeeps | src/main/agents/AgentRosterStore.ts:547-706 | Creating, recording, abandoning, checking, renaming, releasing, suspecting and unlinking each keep the protocol invariant. |
| Roster.RevisionsCountCommits | src/main/agents/AgentRosterStore.ts:322-339 | Without a recovery in between, n writes raise the revision by n and no two are built from the same revision. |
| Roster.IncompleteRecordBlocksForever | src/main/agents/AgentRosterStore.ts:641-650 | Once the owner of a lock file without a complete record is gone, no later run of any length takes the lock away, lets a client in or writes the roster. |
| Roster.LeftLockGoesExactly | src/main/agents/AgentRosterStore.ts:609-656 | A lock whose owner is no longer there can be got rid of by some run if and only if its record is complete. |
| Pool.EvictIfNeeded | src/main/acp/SessionManager.ts:229-240 | The loop removes exactly the unprotected, non-exempt clients with fewer than the excess before them, in the order they were touched, and ends within the limit or with every remaining client protected or exempt. |
| Pool.EvictionIsLeastRecentlyUsed | src/main/acp/SessionManager.ts:229-240 | Every evicted client was touched before every candidate that stays. |
| Pool.VictimCount | src/main/acp/SessionManager.ts:229-240 | As many are evicted as are over the limit, or as there are candidates. |
| Pool.SessionManager.CreateManaged | src/main/acp/SessionManager.ts:98-115 | Returns the current client or makes one with the next generation, and then evicts others unless it is deferred. |
| Pool.SessionManager.SetProtection | src/main/acp/SessionManager.ts:213-224 | Changes one reason, touches the client, and evicts only when a protection is lifted. |
| Pool.SessionManager.SetLimit | src/main/acp/SessionManager.ts:52-55 | A new limit is enforced at once. |
| Pool.SessionManager.Get | src/main/acp/SessionManager.ts:57-62 | A lookup makes the client the most recently touched one. |
| Delivery.EmittedIsAnInOrderPrefix | src/main/acp/SessionManager.ts:174-198 | For any loss, duplication or reordering of one worker's messages and any moment of activation, overflow or stop, the non-stderr events emitted for a client are those of a prefix of what the worker posted, once each and in order, possibly followed by the exit of its process. |
| Delivery.AcceptsInOrder | src/main/acp/AcpWorkerClient.ts:184-192 | Of everything the worker posted only the message after the last accepted one is accepted. |
| Delivery.ActivateKeeps | src/main/acp/SessionManager.ts:81-92 | Flushing the buffer, even when a listener stops the client half way, emits a prefix of what was handed over and nothing after an exit. |
| Delivery.DeferredExactly | src/main/acp/SessionManager.ts:174-198 | Before activation an event is kept, behind all others, if and only if there is room in count and bytes and its size is known; otherwise the client is given up. |
| Delivery.ActivationForwardsAll | src/main/acp/SessionManager.ts:81-92 | Activation without a stop forwards everything that was kept, and the client stays current exactly when no exit is among it. |
| Delivery.NothingIsLost | src/main/acp/SessionManager.ts:81-92 | In any run in which nothing overflows, stops or exits, everything handed over is held or forwarded, in order; once activated, the events forwarded are all visible ones the connection has accepted. |
| Delivery.DeliveredInOrder | src/main/acp/AcpWorkerClient.ts:184-192 | If the messages are delivered in order, the connection has accepted all of them. |
| Delivery.AcpWorker.Post | src/main/acp/worker.ts:109-125 | Numbers events from one without gaps under the launch identity and drops those before it. |
| Delivery.AcpWorker.Start | src/main/acp/worker.ts:27-38 | The launch identity is set once and cannot change. |
| Delivery.AcpWorkerClient.HandleMessage | src/main/acp/AcpWorkerClient.ts:168-224 | A message out of turn or of another identity changes nothing; an accepted one is handed over, an exit at most once. |
| Terminal.TruncateIsLongestAligned | src/main/acp/TerminalHost.ts:583-591 | The cut is the longest suffix within the limit that does not start inside a character. |
| Terminal.OldestGoFirst | src/main/acp/TerminalHost.ts:501-515 | A session loses bytes only after every session written less recently is empty. |
| Terminal.TrimsNoMoreThanNeeded | src/main/acp/TerminalHost.ts:501-515 | What a trimmed session keeps is a suffix on a character boundary, and with any longer one, all older output gone and all newer untouched, the budget would still be exceeded. |
| Terminal.TrimOldestFirst | src/main/acp/TerminalHost.ts:501-515 | The trimming loop keeps the byte counter equal to the sum of the outputs and ends within the budget. |
| Terminal.AppendKeeps | src/main/acp/TerminalHost.ts:464-480 | After a chunk every output is still a suffix of all bytes its session received, within its own limit, and marked as truncated exactly when it is not all of them; the sum moves by the difference of that output. |
| Terminal.TerminalHost.Append | src/main/acp/TerminalHost.ts:464-480 | An append followed by the trimming leaves the counter equal to the sum and within the budget. |
| Terminal.TerminalHost.Create | src/main/acp/TerminalHost.ts:283-330 | A terminal is registered, with empty output, exactly while fewer than the maximum are active. |
| Terminal.TerminalHost.EnforceRetainedOutputBudget | src/main/acp/TerminalHost.ts:501-515 | Trims the sessions in place and keeps every output a suffix of what its session received. |
| Terminal.TerminalHost.DiscardSessionOutput | src/main/acp/TerminalHost.ts:495-499 | Takes the session and its bytes out of the account. |
| Catalog.GrokAgentCatalogService.Commit | src/main/agents/GrokAgentCatalogService.ts:239-293 | After a refresh the token map is the disjoint union of the cached catalogs' tokens with at most 64 entries, the new catalog is there with exactly the tokens drawn, only expired, replaced or least recently used catalogs are gone, the last of these only for want of room; it fails if and only if the generation is stale, there are too many entries, or the tokens cannot be drawn against what the purge leaves. |
| Catalog.GrokAgentCatalogService.MakeCapacity | src/main/agents/GrokAgentCatalogService.ts:448-456 | Terminates, fails only for more than 64 incoming entries, evicts least recently used catalogs, and stops at once: had the last evicted catalog stayed, the incoming entries would not have fitted. |
| Catalog.GrokAgentCatalogService.PurgeExpired | src/main/agents/GrokAgentCatalogService.ts:458-471 | Leaves exactly the unexpired catalogs and their entries. |
| Catalog.GrokAgentCatalogService.RemoveCatalog | src/main/agents/GrokAgentCatalogService.ts:473-483 | Removes one catalog and exactly its own entries. |
| Catalog.GrokAgentCatalogService.IssueTokens | src/main/agents/GrokAgentCatalogService.ts:419-446 | Issues the tokens drawn, distinct and unused; fails if and only if, after some of them, eight draws in a row are refused against exactly those tokens and the entries, or the factory throws. |
| Catalog.DrawnFailsExactly | src/main/agents/GrokAgentCatalogService.ts:419-446 | That condition, for the drawing as a function of the factory. |
| Catalog.DrawnAreFresh | src/main/agents/GrokAgentCatalogService.ts:419-446 | What is drawn has the number asked for, no repetition, nothing in use, and comes from the factory. |
| Catalog.GrokAgentCatalogService.PublicCatalog | src/main/agents/GrokAgentCatalogService.ts:399-417 | The consistency checks on the way out never fail in a reachable state. |
| Catalog.CommitStaysIndexed | src/main/agents/GrokAgentCatalogService.ts:279-292 | Registering a catalog with fresh tokens keeps both maps in agreement. |
| Catalog.TokensAreDisjoint | src/main/agents/GrokAgentCatalogService.ts:458-471 | No token belongs to two catalogs. |
| Base64.CanonicalIffEncoding | src/shared/attachments.ts:134-148 | The test accepts a string if and only if it is the encoding (section 4 of RFC 4648) of some non-empty byte string. |
| Base64.LengthFormula | src/shared/attachments.ts:150-153 | The formula gives the length of the encoded bytes. |
| Base64.PrefixDecoderReadsBack | src/shared/attachments.ts:171-187 | The shift-register decoder gives the first n bytes of what was encoded. |
| Base64.DecodeBase64Prefix | src/shared/attachments.ts:171-187 | The loop over bits and bit count computes the decoder the lemma above is about. |
| Attachments.SignatureChecksAgree | src/main/attachments/AttachmentBroker.ts:411-438 | The encoded-side signature check holds if and only if the byte-side one does and the text signature needs no high bit cleared. |
| Attachments.SignatureChecksDiffer | src/main/attachments/AttachmentBroker.ts:417-419 | A byte string that passes the byte-side check and fails the encoded-side one. |
| Attachments.Consume | src/main/attachments/AttachmentBroker.ts:204-249 | The loop with its running byte total yields the notes and image blocks, or the first error. |
| Attachments.ComposedOrder | src/main/AppController.ts:4344-4369 | The prompt is the file note, the user's text, the image note and the images, in this order. |
| Attachments.WithinTotals | src/shared/attachments.ts:97-121 | The loop accepts exactly the prompts within the image-count, image-byte and text totals. |
| Attachments.ConsumedPromptFitsWire | src/main/attachments/AttachmentBroker.ts:204-249 | A consumed lease with a user text within the input limit always composes, and the prompt meets every wire limit if and only if no image needed the high bits of its signature cleared. |
| Attachments.ConsumedExactly | src/main/attachments/AttachmentBroker.ts:204-249 | A lease is consumed if and only if no picture is unreadable, empty, too large, over the running total or of a wrong signature, and then gives each picture's bytes in order; otherwise the error is that of the first picture with one. |
| Attachments.NotesNameEverything | src/main/attachments/AttachmentBroker.ts:440-452 | The notes name every file and image in order, and hold nothing else but heading, dashes and separators. |
| Framing.ChunkingIsInvisible | src/main/acp/AcpClient.ts:496-515 | Any cut of the stream into chunks yields the lines and the leftover of the whole stream, if and only if no buffer exceeds the cap. |
| Framing.SameStreamSameLines | src/main/acp/AcpClient.ts:496-515 | Two cuts of one stream that stay within the cap yield the same. |
| Framing.CapDependsOnTheCut | src/main/acp/AcpClient.ts:496-503 | A stream can pass in two chunks and end the process in one. |
| Framing.ShortLinesCanOverflow | src/main/acp/AcpClient.ts:496-503 | Such a stream: the cap in empty lines and one more. |
| Framing.LinesRejoin | src/main/acp/AcpClient.ts:504-514 | The lines and the leftover put together with newlines are the stream. |
| Framing.SplitIsUnique | src/main/acp/AcpClient.ts:504-514 | No other lines without newlines give that stream. |
| Framing.StdoutFramer.HandleStdoutChunk | src/main/acp/AcpClient.ts:496-515 | The loop that takes lines out of the buffer handles exactly the complete lines and keeps the rest. |
| Framing.StdoutFramer.EndOfStream | src/main/acp/AcpClient.ts:188-195 | A leftover that is not blank is handled once when the stream ends. |
| Tokenizer.TokenizeIffGrammar | src/main/acp/TerminalHost.ts:534-581 | The automaton accepts a trimmed line with certain tokens if and only if the line is a sequence of plain, escaped, single- and double-quoted pieces and spaces that spells those words. |
| Tokenizer.QuoteAllRoundTrip | src/main/acp/TerminalHost.ts:534-581 | Single-quoting any list of strings, joining with spaces and splitting gives back the list, empty tokens included. |
| Tokenizer.SpelledLineIsRead | src/main/acp/TerminalHost.ts:534-581 | A line of the grammar, with gaps anywhere, is split into its words if and only if its last piece is not an escaped space, and refused otherwise. |
| Tokenizer.EscapedTrailingSpaceIsRefused | src/main/acp/TerminalHost.ts:534-581 | Neither gaps before nor gaps after the escaped space save such a line. |
| Tokenizer.SplitTerminalCommandLine | src/main/acp/TerminalHost.ts:534-581 | The loop over its flags computes the tokens of the automaton, or the error. |

## Left out

- Roster.EveryInterleavingIsSafe: takes the identity check and the unlink as one step and assumes that a written file gets an identity not seen before; writers that do not take the lock are not modelled.
- Delivery.EmittedIsAnInOrderPrefix: speaks of one worker process per client; a second process forked for the same client object is not modelled.
- ActivityProtection.LiveTaskIsProtected: assumes that view numbers last, as a bound on what the stream can ask for.
- Release.NothingIsStranded: takes for granted that each operation reaches its end.
- MergeContents.ProjectCounts: says of projects what is not said of sessions; how sessions divide into present and skipped is given by the merge alone.
- LayoutUndo.FailedCloseIsUndone: remembered selections are compared by lookup, so the order of that object's keys is not restored.
- Terminal.AppendKeeps: says nothing about a character cut by an earlier trim and continued by a later chunk; the code does not align those.
- Quiescence.HeldTokenMeansQuiescent: health checks, permission and interaction queues, auto-permission pumps and session states are one boolean given to the guard.
- The roster protocol and the quiescence protocol are state machines over their steps; retry delays, the 5 s wait and the 30 s age of a stale lock are nondeterminism.
- The bounds of the snapshot schema on maps and tombstones are not stated.
- Maps are unordered: the order of the public schedule, task and workflow arrays is not modelled, nor ties that equal timestamps would break by insertion order.
- Project ids are taken to be within the length that the sidebar order policy accepts; its error for more than 2000 entries is not modelled.
- UTF-8 decoding across chunks, Unicode normalization, locale comparison of timestamps (taken as integers) and redaction.
- Agent, binding and starter-crew mutations of the roster are an arbitrary function of its contents.
- Expiry clocks, token randomness, UUIDs and file contents are parameters.
- Electron windows, IPC registration, menus, notifications, the control server, Git, MCP, account and doctor services.
- The ACP handshake, permission queues and prompt turns; brokers for memory and session history beyond the leases they hold.
