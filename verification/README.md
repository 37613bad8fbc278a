# showrunner, verified

A Dafny model of showrunner's self-contained algorithms and state machines, with
proofs of what they promise. showrunner is a daemon and terminal interface over
tmux: it snapshots the tmux server, keeps a history of what was closed, restores
and reopens, suspends idle agents, follows what each agent needs from the user
and publishes it, and names windows. `dafny verify dfyconfig.toml` checks the
whole project with Dafny 4.11.

## How the model is laid out

| files | what they model |
|---|---|
| `Snapshots`, `ClosedHistory`, `ArchiveClose`, `SnapshotFiles`, `Tracker`, `ExactlyOnce`, `TrackerRuns`, `KilledWindows`, `MovedWindows`, `RecordedTwice`, `RedactedWords`, `SnapshotContents` | `src/snapshot.rs`: building a snapshot, the closed history, closing with an archive first, the rotated files, the tracker, whole runs of it, what its methods make of them, which windows a close destroys, what is recorded twice, and what a snapshot records field by field |
| `TmuxServer`, `RestoreWindow`, `RestoreSessions`, `RestorePlan`, `RestoreMerging`, `Reopening`, `RoundTrip`, `PastedPanes`, `RestoredSettings` | `src/restore.rs` on a small tmux server: the commands as steps, restoring as methods that issue them, the laws of restoring, and the round trip with `src/snapshot.rs` |
| `ResumeCommand`, `ConversationFlags`, `ShellQuote` | the argv rewriting and quoting of `src/restore.rs` |
| `Suspension` | `src/suspend.rs` |
| `Inventory`, `AgentStatus`, `StatusRules`, `TmuxArgs`, `Publisher` | `src/inventory.rs`: agent states tick by tick, and the incremental publisher against a tmux that reads command lists |
| `ParentChains`, `SessionTree` | `nest_sessions` of `src/sessions_view.rs` |
| `TaskStacks` | the stacks of `src/config.rs` |
| `WindowNaming`, `WindowTitles` | `src/naming.rs` |
| `FuzzyMatch`, `ComposerCursor` | the branch picker and the composer of `src/app.rs` |
| `HooksInstall` | the Claude settings of `src/hooks_install.rs` |
| `Sequences`, `Characters`, `Wrappers` | shared facts and types |

Code that works step by step is a method with loops, or a class whose methods
update its fields, proved against a function of the old state; the promises are
then lemmas about those functions, over all inputs or over all runs.

What lies outside is made a parameter: the clock, whether tmux closes a target or
a file can be written, command lines read from `/proc`, which agents run where,
which directories are dirty. tmux commands succeed unless their own rules make
them fail (a taken index, an unknown target, an empty command in a list).

## Where the code departs from what it says

The model follows the code. Each of these is stated as an exact condition.

- A forced restore promises to add a window whose index is taken at the next free
  one. The set of taken indexes is read once (`src/restore.rs:383-385`) and not
  updated, so a displaced window can take the index of a later one, whose creation
  then fails and gives up the session (`RestoreMerging.ForcedWorksIff`,
  `RestoreMerging.ForcedCanFail`). `reopen` drops its entry all the same
  (`Reopening.ReopensWholeIff`).
- Archiving before closing holds for at most a hundred targets at once; beyond
  that the first entries are pushed out and their targets closed
  (`ArchiveClose.ArchivedFirstIff`).
- A window moved after a tick and then closed by another process is recorded twice,
  once under each session (`MovedWindows.MovedIsRecordedTwice`, with a run that
  does it in `RecordedTwice.MovedRunRecordsTwice`).
- Reopening an entry before the tracker has seen its window go makes the next tick
  record that window again (`MovedWindows.ReopenedTooSoon`, with a run that does it
  in `RecordedTwice.ReopenRunRecordsTwice`).
- A window opened in a session after the snapshot dies with the session and is in no
  entry (`KilledWindows.OpenedSinceIsLostIff`).
- A tick without panes, which a failing tmux call gives too, or during a restore
  drops the previous snapshot, so a window closed around it is in no history.
  `ExactlyOnce.LostIff` says exactly which windows the tracker loses.
- A trailing `;` is meant to be dropped from titles, but one before trailing
  blanks stays; tmux then refuses the whole call, every time
  (`WindowNaming.SettlesIff`).
- A window whose active agent pane has no usable title is to be named by the first
  pane that has one. It is not when the active pane is listed first
  (`WindowTitles.TitleUnusedIff`).
- A lone `node`, `bun` or `deno` takes the subcommand or flag for its script on
  the second rewrite, and an id that looks like a flag is kept by the next one
  (`ResumeCommand.LastIdWins`). The fork flags of Claude and OpenCode are kept by
  a later resume (`ResumeCommand.ResumeOfFork`).
- Tasks with the same branch are not all shown (`TaskStacks.TasksStackOrdered`).
- Sessions on or below a cycle of parents are not shown (`SessionTree.ShownIffEnds`).
- Uninstalling hooks drops an empty event list or an empty `hooks` object that was
  there before installing (`HooksInstall.UninstallUndoesInstallIff`).

## Model

| member | source | states |
|---|---|---|
| `ParentChains.EndsIffNoCycleAbove` | src/sessions_view.rs:154-166 | a parent chain among present sessions ends exactly when it runs into no cycle |
| `ParentChains.AllEndIffNoCycle` | src/sessions_view.rs:154-166 | every chain ends exactly when no session is its own ancestor |
| `ParentChains.DepthBound` | src/sessions_view.rs:167-176 | a session whose chain ends has fewer ancestors than there are sessions |
| `SessionTree.NestSessions` | src/sessions_view.rs:145-178 | the loop over an explicit stack terminates for every parent map, repeated names and cycles included, and lists the recursive preorder of the forest |
| `SessionTree.ForestMembers` | src/sessions_view.rs:140-144 | the list holds a session at a depth exactly when its chain ends after that many present ancestors |
| `SessionTree.ForestDistinct` | src/sessions_view.rs:168-171 | no session is listed twice, even when the input repeats names |
| `SessionTree.PermutationIffNoCycle` | src/sessions_view.rs:140-178 | the list is a permutation of the input exactly when no name repeats and no session is its own ancestor |
| `SessionTree.ShownIffEnds` | src/sessions_view.rs:158-176 | a session is left out exactly when its chain meets a cycle |
| `SessionTree.SubtreesContiguous` | src/sessions_view.rs:140-144 | each shown session is followed by exactly its descendants, in one block |
| `SessionTree.SiblingsInInputOrder` | src/sessions_view.rs:140-144 | the sessions shown directly under a parent are all its children, in input order |
| `SessionTree.ChildrenByParent` | src/sessions_view.rs:149-157 | the children map lists each present parent's children in input order |
| `SessionTree.Roots` | src/sessions_view.rs:158-162 | the roots are the sessions without a present parent, in input order |
| `TaskStacks.Walk` | src/config.rs:428-442 | the walk up the base links terminates on every graph, within the number of distinct branches |
| `TaskStacks.StackChains` | src/config.rs:424-449 | every task is in the chain of the root its walk ends at, with its depth, in config order, and in no other |
| `TaskStacks.PlaceWhenLinksEnd` | src/config.rs:419-423 | on links that end, a task's depth is its ancestor count plus one and its root is its parentless ancestor |
| `TaskStacks.StackPositions` | src/config.rs:451-464 | exactly the tasks that share a chain with another get a position, with their depth and the deepest depth in their chain |
| `TaskStacks.TasksStackOrdered` | src/config.rs:466-503 | with distinct branches the result is the display order; it is a permutation of the tasks exactly when branches are distinct, cyclic links included |
| `TaskStacks.OrderUnique` | src/config.rs:466-468 | the properties of the display order leave only one order |
| `TaskStacks.ChainsContiguous` | src/config.rs:466-468 | the tasks of a chain are shown in one block |
| `TaskStacks.ParentPrecedesChild` | src/config.rs:466-468 | a task comes after the one it is based on when its links end |
| `TaskStacks.SortMembers` | src/config.rs:494-495 | members are sorted by depth, then config index, and are the same members |
| `ResumeCommand.KeepArgs` | src/restore.rs:121-148 | the loop keeps the words the recursive rewriting keeps |
| `ResumeCommand.Resume` | src/restore.rs:111-166 | builds the resume command of each kind of agent, or returns the argv unchanged |
| `ResumeCommand.Fork` | src/restore.rs:175-235 | builds the fork command of each kind of agent, or nothing when it cannot fork |
| `ResumeCommand.KeptIsStaying` | src/restore.rs:103-110 | position by position: a word is kept exactly when it is no conversation flag, no value of one, and no positional word that follows no flag |
| `ResumeCommand.KeptAgain` | src/restore.rs:103-110 | rewriting what was kept, with flags after it, keeps all of it |
| `ResumeCommand.LastIdWins` | src/restore.rs:111-166 | resuming b after resuming a is resuming b, exactly when a runtime argv names its script and a is not taken for a stray flag |
| `ResumeCommand.LoneRuntime` | src/restore.rs:119 | a runtime word alone is never rewritten to the same command twice |
| `ResumeCommand.ForkIsResumePlus` | src/restore.rs:168-235 | a fork is the resume command plus the fork flag; for Codex the subcommand word is swapped |
| `ResumeCommand.ResumeOfFork` | src/restore.rs:72-83 | resuming a Codex fork resumes the original; the fork flags of Claude and OpenCode are kept by a later resume |
| `ConversationFlags.ClaudeFlagsGo` | src/restore.rs:69-83 | for Claude, `--resume` and `-r` go with the id after them, `--session-id` with the word after it, `--continue` and `-c` alone |
| `ConversationFlags.OpenCodeFlagsGo` | src/restore.rs:69-83 | for OpenCode, `--session` and `-s` go with the word after them, `--continue` and `-c` alone |
| `ConversationFlags.CodexFlagsGo` | src/restore.rs:69-83 | for Codex, `--last` goes alone |
| `ConversationFlags.OtherFlagsStay` | src/restore.rs:85-95 | any other flag stays with the word after it, but without it when it is one of five that take none or has its value inline |
| `ConversationFlags.ResumePicksOnce` | src/restore.rs:111-166 | the resumed command is the program, words none of which picks a conversation, and the one flag and id that do |
| `ConversationFlags.ResumeOtherwise` | src/restore.rs:111-122 | a user-defined agent gets its own command, and nothing is rewritten without an id, without words or for Pi; what can fork is what can be resumed by id |
| `ConversationFlags.BaseNameIs` | src/restore.rs:97-102 | the base name is what follows the last slash |
| `ConversationFlags.ProgramIs` | src/restore.rs:97-102 | the program is two words exactly when the first is named node, bun or deno and there is a second |
| `ShellQuote.JoinIsRead` | src/restore.rs:237-253 | token recognition and quote removal of the shell give back exactly the joined words, empty words and quotes included |
| `ShellQuote.JoinInjective` | src/restore.rs:237-253 | different word lists give different command lines |
| `ShellQuote.PlainUnchanged` | src/restore.rs:241-249 | a word is left bare exactly when all its characters are plain and it is not empty |
| `Snapshots.RedactArgv` | src/snapshot.rs:177-204 | the loop with its pending skip drops the words the recursive definition drops |
| `Snapshots.NothingSecretLeft` | src/snapshot.rs:174-176 | no word that is left matches a pattern |
| `Snapshots.RedactIdempotent` | src/snapshot.rs:174-204 | redacting twice is redacting once |
| `RedactedWords.RedactedIsStaying` | src/snapshot.rs:174-204 | position by position: a word stays exactly when no pattern names it and it is not the value of a flag before it |
| `Snapshots.Build` | src/snapshot.rs:85-150 | pushing onto nested vectors gives the fold of the pane list |
| `Snapshots.SnapshotListsPanes` | src/snapshot.rs:83-150 | a snapshot holds every pane once, in list order, under its own session and window, grouped without empty or split neighbours |
| `SnapshotContents.SnapshotHeads` | src/snapshot.rs:94-122 | every session is recorded with its category and environment, every window with its index, names, layout, options and whether it is active |
| `SnapshotContents.SnapshotPanes` | src/snapshot.rs:126-144 | every pane is recorded with its place and directory and what runs in it, without secrets, or in an idle pane what its option says |
| `ClosedHistory.ClosedBetween` | src/snapshot.rs:319-347 | the loop gives the entries of the windows gone by id |
| `ClosedHistory.ClosedAmongWindows` | src/snapshot.rs:316-318 | the entries hold exactly the vanished windows, each once, in order, under the session last holding it |
| `ClosedHistory.WholeSessionEntry` | src/snapshot.rs:316-318 | a session is one entry exactly when its name is gone and no window of it lives on |
| `ClosedHistory.VanishedCarry` | src/snapshot.rs:319-347 | a vanished window or session is archived with its session's name, category and environment, and what it holds is gone |
| `ClosedHistory.RecordClosed` | src/snapshot.rs:352-373 | appends, prunes by age and drains to the newest hundred; returns the new ids in order |
| `ClosedHistory.RecordedShape` | src/snapshot.rs:349-351 | up to a hundred new entries all stay, in order, after the newest young old ones |
| `ClosedHistory.RecordedOverflow` | src/snapshot.rs:370-371 | of more than a hundred new entries only the last hundred are recorded |
| `ClosedHistory.RecordedBounded` | src/snapshot.rs:349-373 | at most a hundred entries, none older than seven days, ids distinct |
| `ClosedHistory.RoomForAll` | src/snapshot.rs:367-371 | entries under seven days old all stay while a hundred are enough |
| `ClosedHistory.TakeTargetConserves` | src/snapshot.rs:376-390 | taking a target moves its windows from the snapshot to the entry, none lost or duplicated |
| `ClosedHistory.TakeAllConserves` | src/snapshot.rs:629-635 | the windows of all entries and of what is left are those of the snapshot |
| `ClosedHistory.TakeTargetTakes` | src/snapshot.rs:376-390 | a session target takes the first session of that name as it is; a window target takes that window out of it, the entry being the session with that window alone and the rest keeping everything else |
| `ClosedHistory.TakeAllFits` | src/snapshot.rs:629-635 | every entry fits its target and what is left is the sessions in order, each with some of its windows |
| `ClosedHistory.Take` | src/snapshot.rs:629-635 | the targets found, what each took, in order, and what is left; every entry has the name, category and environment of its session, and every session left keeps them |
| `ArchiveClose.ArchiveAndClose` | src/snapshot.rs:623-659 | performs its saves and kills in this order and reports the closed targets, whatever tmux and the disk answer |
| `ArchiveClose.ArchivedFirstIff` | src/snapshot.rs:618-622 | before every kill the saved history holds that target's entry, exactly when at most a hundred targets are closed |
| `ArchiveClose.FileAtEnd` | src/snapshot.rs:652-657 | when the entries of failed targets, if any, can be taken out again, the history ends as a retained part of the old one followed by exactly the entries of the closed targets, in order |
| `ArchiveClose.ReportedAreArchived` | src/snapshot.rs:640-659 | each reported target is a closed one, with the id of its entry |
| `ArchiveClose.FileStaysBounded` | src/snapshot.rs:623-659 | after every step: distinct ids, at most a hundred entries, none older than seven days |
| `SnapshotFiles.Save` | src/snapshot.rs:252-261 | the descending rename loop moves every slot up by one, gaps included, before the snapshot is written; when writing fails the files have moved all the same |
| `SnapshotFiles.SaveKeepsNewest` | src/snapshot.rs:208-261 | a rotating save keeps the previous five snapshots after the new one, in order |
| `SnapshotFiles.FailedSaveIsMadeUp` | src/snapshot.rs:252-261 | a rotating save that fails leaves slot 0 empty and loses nothing: the next save that works leaves the files one rotating save would have left |
| `SnapshotFiles.RunStaysCurrent` | src/snapshot.rs:439-457 | over any run of ticks the written snapshot has the sessions, window indexes and agent sessions of the last one seen, other content differs only for thirty seconds, and neighbouring slots differ in shape |
| `SnapshotFiles.WritesWhenDue` | src/snapshot.rs:439-457 | nothing is written exactly when the shape and the agent sessions are the same, it is not the first, and other content is the same or under thirty seconds old; the files rotate exactly when the shape changed |
| `SnapshotFiles.SlotsAreNewest` | src/snapshot.rs:208-261 | over any run the slots are the newest six of all snapshots kept without a bound |
| `Trackers.NotYetRecorded` | src/snapshot.rs:667-691 | keeps the windows not archived within two minutes under the same session name, and drops entries left empty |
| `Trackers.Tracker.constructor` | src/snapshot.rs:527-533 | starts from the snapshot on disk, the first write still due |
| `Trackers.Tracker.Tick` | src/snapshot.rs:535-599 | nothing without panes or during a restore; otherwise records what vanished and was not archived, writes the snapshot when due, remembers it and returns, in order, the panes in which something runs although a pending option tells what ran before; whether or not the history and the snapshot can be written, and whatever slots exist |
| `Trackers.ForgettingKeepsTheSnapshot` | src/snapshot.rs:563-578 | removing those options changes no snapshot |
| `Trackers.TickRecordsCarry` | src/snapshot.rs:579-592 | what a tick records of a session has its name, category and environment, its kind, and exactly the windows not recently archived |
| `Trackers.Tracker.Close` | src/snapshot.rs:601-616 | archives from the previous snapshot, which loses what was taken; nothing without one |
| `KilledWindows.KilledAreArchivedIff` | src/snapshot.rs:618-659 | every window a close destroys is in an entry it archived, exactly when each window now in a destroyed session was listed where a closed target takes it and by none that failed |
| `KilledWindows.OpenedSinceIsLostIff` | src/snapshot.rs:618-659 | when every target is closed and no window moved: exactly when the snapshot lists every window now in the destroyed sessions |
| `TrackerRuns.Act` | src/snapshot.rs:535-616 | a tick, skipped or not, a close, an archive by another process and a reopened entry take the tracker and its history file through the step of the run model, whatever tmux and the disk answer |
| `TrackerRuns.Work` | src/snapshot.rs:535-616 | over any inputs the tracker and its history file end in the state of the run of their events |
| `TrackerRuns.ListedIsLocated` | src/snapshot.rs:83-150 | a pane list with the panes of each window together gives a snapshot listing every window of the server once, under its session, and is empty only without panes |
| `ExactlyOnce.TickRecordsWindows` | src/snapshot.rs:579-592 | a tick records the windows gone since the last one but those recently archived |
| `ExactlyOnce.EachClosedWindowOnce` | src/snapshot.rs:535-691 | over any run of ticks, skipped or not, daemon closes, outside archives, reopened entries and changes in tmux: no window on the server has been recorded and none twice; a window seen in a tick has been recorded once, except while no close archived it and the tracker still watches it or has lost it |
| `ExactlyOnce.LostIff` | src/snapshot.rs:535-616 | a window is lost exactly when a skipped tick ended the watch on it, a tick could not keep its entry, or a close took it out of the snapshot and failed, and no later tick saw it |
| `ExactlyOnce.NothingLostNothingMissed` | src/snapshot.rs:535-691 | when no step loses a window, after a tick every window seen has been recorded exactly once if it is gone and never if it lives, wherever it was moved |
| `ExactlyOnce.LoggedIsOnFile` | src/snapshot.rs:579-592 | what a step counts as recorded is at the end of the history file after it, in order, with its reason and time |
| `ExactlyOnce.RecordedWasOnFile` | src/snapshot.rs:535-691 | a window a run counts as recorded was in the history file at some point of the run |
| `MovedWindows.GoneIsRecordedUnlessRecent` | src/snapshot.rs:661-691 | a tick records a window it saw last time and no longer sees exactly when no recent entry holds it under the session it was seen in and the tick keeps its entry |
| `MovedWindows.ArchivedElsewhereIsRecordedAgain` | src/snapshot.rs:661-691 | so a window another process archived and closed is recorded once or twice, by the same condition |
| `MovedWindows.MovedIsRecordedTwice` | src/snapshot.rs:661-691 | no recent entry does when the window was moved to another session since the last tick, so it is recorded twice |
| `MovedWindows.ReopenedTooSoon` | src/restore.rs:572-587 | a window archived since the last tick whose only entry is reopened before the next one, under a new id, is recorded once more |
| `RecordedTwice.MovedRunRecordsTwice` | src/snapshot.rs:661-691 | a run of four steps that records a moved window twice: every step but the archive is allowed, and the archive but for the session the tracker last saw the window in |
| `RecordedTwice.ReopenRunRecordsTwice` | src/restore.rs:572-587 | a run of five steps, every one but the reopening allowed, that records a reopened window twice |
| `RestoreWindow.PaneCommandReads` | src/restore.rs:255-270 | a pane gets no command exactly when it ran nothing; the pasted line is read back by the shell as the recorded or resuming words |
| `RestoreWindow.FillWindow` | src/restore.rs:306-372 | the commands leave the window with its panes in snapshot order, each with its directory and pending option, the names, options and layout recorded and the right pane active; one paste for each pane with an option, in order, read by the shell as the command it holds and submitted only for a known agent when agents are to be run |
| `RestoreSessions.RestoreSession` | src/restore.rs:374-448 | the loop over the windows, the category and the environment, with the fault that gives up the session |
| `RestoreSessions.Restore` | src/restore.rs:489-505 | sessions in turn, faults collected, windows and pastes counted |
| `PastedPanes.RestoredPastes` | src/restore.rs:355-371 | whatever is restored and whatever fails, the pastes are one for each pane of a new window with a pending option, in order, into that pane, with its command |
| `RestoredSettings.SettingsRestored` | src/restore.rs:374-448 | a session restored without a fault has the recorded category, unless empty, and every recorded variable with its last value, the others kept |
| `RestorePlan.WindowsFollowPlan` | src/restore.rs:390-439 | restoring follows a plan computed from indexes alone: it works exactly when the plan does and adds the planned windows either way |
| `RestorePlan.SessionMerges` | src/restore.rs:374-448 | each planned window is added with what was recorded; no other window, session or slot changes |
| `RestoreMerging.UnforcedWorksIff` | src/restore.rs:374-376 | without force a session is restored without a fault exactly when its missing windows have different indexes |
| `RestoreMerging.ForcedWorksIff` | src/restore.rs:383-439 | a forced restore of a session works exactly when no window whose index was free at the start meets an earlier window with that index or more displaced windows than free indexes before it |
| `RestoreMerging.ForcedCanFail` | src/restore.rs:384-438 | two windows, the first one's index taken: the forced restore fails |
| `RestoreMerging.ReopeningWorks` | src/restore.rs:374-376 | a single window is always reopened; the windows of a missing session are when their indexes differ |
| `RestoreMerging.RestoreTouchesNothing` | src/restore.rs:489-491 | whatever fails, every existing window stays as and where it is; without errors the report counts the windows added |
| `RestoreMerging.RestoreWorksIff` | src/restore.rs:492-505 | a restore reports no error exactly when every session can be restored on the server as it was found |
| `RestoreMerging.UnforcedAddsMissing` | src/restore.rs:489-491 | without force: what is added is listed in the snapshot and is as recorded there, and without errors everything listed is there |
| `RestoreMerging.SecondRunCreatesNothing` | src/restore.rs:489-491 | running it again creates and pastes nothing and changes no window |
| `RestoreMerging.ForcedAddsEach` | src/restore.rs:374-376 | with force and no errors one window is added per snapshot window |
| `Reopening.Reopen` | src/restore.rs:572-587 | the entry's session is restored by force and the entry leaves the history |
| `Reopening.ReopensWholeIff` | src/restore.rs:572-587 | the entry is dropped whatever happens; it came back whole exactly when no window collides |
| `Reopening.ClosedComesBack` | src/restore.rs:572-587 | a closed window always comes back; a closed session does while its name is free and its indexes differ |
| `RoundTrip.SnapshotOfServer` | src/snapshot.rs:83-150 | the snapshot of a listed server has one entry per session, windows by index, panes in order |
| `RoundTrip.MissingSessionInPlace` | src/restore.rs:374-448 | a session the server lacks comes back whole |
| `RoundTrip.SnapshotRoundTrip` | src/restore.rs:489-505 | restore a well-formed snapshot into a server lacking its sessions, leave the panes idle, and the next snapshot has the same sessions, categories, indexes, options, given names, active marks, panes, directories, argv and agents |
| `RoundTrip.SnapshotsAreWellFormed` | src/snapshot.rs:83-150 | every snapshot of a listed server has ascending indexes and one active window and pane each, so it can make the round trip |
| `Suspension.SuspendingKeepsTheSnapshot` | src/suspend.rs:152-195 | the next snapshot records a suspended pane as the last one with the agent running did |
| `Suspension.PastedCommandResumes` | src/suspend.rs:152-172 | the pasted line is read as the command resuming the suspended session, built on the agent's name when its command line could not be read |
| `Suspension.Suspender.Step` | src/suspend.rs:59-230 | each pane tried is listed, idle, quiet for long enough, off screen, not kept, without a pending command, in no excluded category, with a known agent other than Pi and a session id, was not tried before and is clean; the first such pane of an id is tried; those that stop are done, and exactly the candidates stay marked |
| `Suspension.TriedOnce` | src/suspend.rs:222-224 | a step tries no pane twice |
| `Suspension.TriedAgainOnlyAfterLeaving` | src/suspend.rs:197-224 | over any run a clean candidate is tried exactly when it was no candidate in the round before |
| `AgentStatuses.AgentTable.Record` | src/inventory.rs:148-164 | the state of the pane after a hook event |
| `AgentStatuses.AgentTable.UpdateView` | src/inventory.rs:166-175 | the time on screen and whether the result was read |
| `AgentStatuses.AgentTable.UpdateStatuses` | src/inventory.rs:216-246 | ticks every known pane and reports the changed statuses in order |
| `AgentStatuses.AgentTable.RefreshStates` | src/inventory.rs:469-482 | the table after vanished panes are dropped and agents looked up again |
| `AgentStatuses.TickUpdatesEach` | src/inventory.rs:214-246 | each listed pane is updated once and reported exactly when its status became another one |
| `AgentStatuses.RefreshKeepsOrResets` | src/inventory.rs:464-482 | the table holds exactly the listed panes; hook data is kept while the agent stays or has just appeared and forgotten when it exits or changes |
| `AgentStatuses.UnreadUntilSeen` | src/inventory.rs:148-211 | after a finished turn with nothing recorded since, the result counts as read exactly when a stretch of ticks on screen spanned two seconds; until then no tick reports idle |
| `AgentStatuses.SeenWhenAnySpan` | src/inventory.rs:166-175 | with a clock that never goes back, any two ticks with the pane on screen throughout will do |
| `AgentStatuses.QuestionStaysPending` | src/inventory.rs:143-152 | permission requests, ticks and lookups leave a pending question pending and every tick reports it |
| `StatusRules.EventDecides` | src/inventory.rs:174-209 | after an event and quiet steps a tick gives permission, question, error, working, idle, done or no status as that event asks, and working for an idle or done pane exactly when its agent is a guessing one with output since |
| `StatusRules.NoEventDecides` | src/inventory.rs:192-197 | without an event the status is working or idle by output, and only with an agent |
| `StatusRules.UpdateGivesDue` | src/inventory.rs:216-246 | in the table every listed pane gets the status its last event asks for, and is reported when it is a new one |
| `StatusRules.SessionIdFollows` | src/inventory.rs:143-165 | the session id is the last one told; ending the session forgets it |
| `StatusRules.LostAgentForgets` | src/inventory.rs:469-482 | a pane whose agent went or was replaced knows nothing but the new agent |
| `TmuxArgs.PlainIsRead` | src/inventory.rs:303-311 | tmux reads the joined commands back |
| `TmuxArgs.EndedTwiceIsRefused` | src/naming.rs:53-55 | a word ending in a semicolon before a separator makes tmux refuse the whole call |
| `Publishing.StatusIsMostUrgent` | src/control.rs:137-142 | a window's status is that of some pane of it and none is more urgent |
| `Publishing.WindowOptions` | src/inventory.rs:259-288 | folding the panes into a map gives every window its most urgent status and, when nothing is pending, its quiet time |
| `Publishing.IdleTellsTheUnit` | src/inventory.rs:248-257 | two quiet times look the same exactly when they are the same number of the same unit |
| `Publishing.IdleReads` | src/inventory.rs:248-257 | a quiet time reads as the whole number of the largest unit that fits |
| `Publishing.CodeReads` | src/inventory.rs:89-114 | a published code reads back as its status |
| `Publishing.WantedReads` | src/inventory.rs:259-288 | a window's value reads back as its most urgent status, with the quiet time since its first pane's activity exactly when that is idle or done |
| `Publishing.Publisher.WindowOptionArgs` | src/inventory.rs:290-315 | the arguments send the changes in sorted order and the published table becomes the wanted one |
| `Publishing.SendingRefines` | src/inventory.rs:290-315 | performed by tmux, the arguments give every wanted window its wanted options and change nothing else |
| `Publishing.NothingSentIff` | src/inventory.rs:290-292 | nothing is sent exactly when every wanted value is published already |
| `Publishing.WindowsShowTheirStatus` | src/inventory.rs:317-330 | over any run of calls with windows coming and going, after each call every window shows its most urgent pane status |
| `FuzzyMatch.FuzzyScore` | src/app.rs:3611-3650 | the greedy scan finds a score exactly when the query is a subsequence, and it is that of the pointwise leftmost embedding, the gaps telescoped |
| `FuzzyMatch.PrefixIsBest` | src/app.rs:3611-3650 | no match is better than one at the very start without gaps, which scores by the length alone |
| `FuzzyMatch.FilteredBranches` | src/app.rs:3377-3390 | exactly the matching branches, by score and then by position |
| `FuzzyMatch.EmptyQueryListsAll` | src/app.rs:3377-3378 | an empty query lists every branch in list order |
| `ComposerCursor.BoundaryIsOffset` | src/app.rs:338-361 | the character boundaries of a buffer are exactly the starts of its characters and its end |
| `ComposerCursor.DecodesBack` | src/app.rs:376-382 | an encoded character stands for its own number |
| `ComposerCursor.Composer.Left` | src/app.rs:338-348 | one character left, to its first byte, unless at the start |
| `ComposerCursor.Composer.Right` | src/app.rs:350-361 | one character right, or to the end |
| `ComposerCursor.Composer.Home` | src/app.rs:2249-2251 | to the start |
| `ComposerCursor.Composer.End` | src/app.rs:2253-2255 | to the end |
| `ComposerCursor.Composer.Insert` | src/app.rs:376-382 | the character goes in at the cursor, a newline as a space |
| `ComposerCursor.Composer.Backspace` | src/app.rs:363-374 | the character before the cursor goes |
| `ComposerCursor.Composer.Paste` | src/entry.rs:103-121 | the cleaned text goes to the end and the cursor stays |
| `ComposerCursor.Composer.Run` | src/app.rs:2236-2266 | over any sequence of edits the buffer is the UTF-8 of the edited line and the cursor is between characters |
| `ComposerCursor.BackspaceUndoesInsert` | src/app.rs:364-382 | backspace after insert restores text and cursor |
| `ComposerCursor.MovesUndo` | src/app.rs:338-361 | left undoes right exactly away from the end, right undoes left exactly away from the start |
| `ComposerCursor.KeysPlace` | src/app.rs:338-361 | a character typed after Home, End, Left, Right or Backspace goes where that key put the cursor |
| `ComposerCursor.EditsKeepOneLine` | src/app.rs:376-382 | a single-line composer never holds a newline |
| `HooksInstall.ClaudeInstall` | src/hooks_install.rs:110-133 | the edits in place give the installed settings, or the fault |
| `HooksInstall.ClaudeUninstall` | src/hooks_install.rs:135-156 | the edits in place give the settings without our groups |
| `HooksInstall.InstallSubscribesAll` | src/hooks_install.rs:163-176 | after installing no event is missing |
| `HooksInstall.InstallChangesNothingIff` | src/hooks_install.rs:110-133 | installing changes nothing exactly when no event is missing |
| `HooksInstall.InstallIdempotent` | src/hooks_install.rs:110-133 | installing twice is installing once |
| `HooksInstall.GroupIs` | src/hooks_install.rs:100-108 | our group has the matcher of its subscription and one hook with our command, five seconds and perhaps in the background |
| `HooksInstall.InstallKeepsSettings` | src/hooks_install.rs:110-111 | every setting, event and group stays in order; only our groups are added, at the end of lists that had none |
| `HooksInstall.UninstallRemovesOnlyOurs` | src/hooks_install.rs:135-156 | in the settings returned no group of ours is left, each list is the old one without our groups, in order; an event goes exactly when all its groups were ours, `hooks` when that leaves no event, and every other setting stays |
| `HooksInstall.UninstallUndoesInstallIff` | src/hooks_install.rs:112-156 | uninstalling after installing gives back the settings exactly when they held none of our groups, no empty list for a template event and no empty hooks object |
| `WindowNaming.NamesAreShort` | src/naming.rs:51-77 | a name has one to max(1, max_len) characters, no control character, no leading glyph and no trailing space |
| `WindowNaming.ShortenedIsVerbatim` | src/naming.rs:70-76 | only a title kept whole can end in a semicolon |
| `WindowNaming.SemicolonCanStay` | src/naming.rs:58-62 | the title "a; ;" is cleaned to "a;" |
| `WindowNaming.RenameArgs` | src/naming.rs:102-166 | the loops give the joined commands of the picked windows |
| `WindowNaming.PickedOnce` | src/naming.rs:102-128 | each window is named by at most one of its agent panes, with that pane's cleaned title |
| `WindowNaming.CallApplies` | src/naming.rs:130-166 | a call tmux can read applies every window's action and changes nothing else |
| `WindowNaming.SettlesIff` | src/naming.rs:102-166 | with unchanged titles the next call is empty exactly when no name given now ends in a semicolon |
| `WindowNaming.UserNamesStay` | src/naming.rs:84-100 | once a call has seen a name of the user's own, no later call in any run has a command for that window |
| `WindowTitles.CleanedKeeps` | src/naming.rs:48-57 | cleaning drops control characters, leading glyphs and a trailing run of semicolons with blanks around it, and nothing else |
| `WindowTitles.TitleIff` | src/naming.rs:51-77 | a title is none exactly when it is empty or says nothing; a longer one is cut and ends in an ellipsis |
| `WindowTitles.PickedIsChosen` | src/naming.rs:102-128 | the active pane with a usable title names the window; else the first pane when it is active or no title is usable; else the first usable one |
| `WindowTitles.TitleUnusedIff` | src/naming.rs:102-128 | a usable title goes unused exactly when the first agent pane is active and no active one has a usable title |
| `WindowTitles.CallNames` | src/naming.rs:84-100 | a readable call leaves windows with naming off alone, turns it off for those named by hand and gives the others their title |

## Left out

- ExactlyOnce.EachClosedWindowOnce: assumes what the design takes for granted: steps are atomic, ids are not reused, a window is in one session, the windows a close archives and closes are on the server where the tracker last saw them, and the entry of a target that could not be closed can be taken out of the history again. A close takes at most a hundred targets; from the first archive by another process to the next tick at most a hundred entries are archived, none two minutes old at that tick, and none reopened before it. `MovedWindows` says what happens when the tracker last saw a window elsewhere or its entry is reopened too soon.
- Trackers.Tracker.Tick: the session environments and the seeding of agent session ids from the last snapshot are inputs; a file is replaced as a whole or not at all.
- SnapshotFiles.RunStaysCurrent: is about ticks whose save works; after one that fails, slot 0 can stay empty until the next write that is due.
- Snapshots.Build: the pending option is a parsed value; text that is not JSON counts as none.
- RoundTrip.SnapshotRoundTrip: leaves out window ids, which are new, layouts, which tmux rewrites with the new pane ids, the environment, which the snapshot takes from a cache, and the names tmux picks for automatically named windows.
- RestoreWindow.FillWindow: `split-window` always succeeds; a pane too small to split is not modelled, nor is the size given to a new session.
- RestoreSessions.Restore: the restore lock, waiting for prompts and the pasting itself are not modelled; pastes are returned.
- ResumeCommand.KeepArgs: the loop appears twice in the source, once in each command; it is modelled once.
- ShellQuote.JoinIsRead: reads simple commands without expansions; assignments, reserved words and aliases in first position are not modelled.
- AgentStatuses.AgentTable.UpdateStatuses: agents defined in TOML whose screen is captured for attention markers are not modelled.
- Publishing.WindowsShowTheirStatus: calls are successful ones; a failed tmux call leaves the published table ahead of the server until the value changes.
- FuzzyMatch.FuzzyScore: strings are lower-cased and trimmed already, and the score is an unbounded integer.
- WindowNaming.SettlesIff: tmux also expands formats in window names; names with `#` are taken literally here.
- HooksInstall.ClaudeInstall: parsing and printing JSON are inverse; the files, backups and the Codex and OpenCode parts are not modelled.
- Grouping of sessions by category in the session view, and its case-insensitive order.
- Resolving targets, sending keys and every other command of `src/control.rs` apart from a window's status.
- Finding which agent runs in a pane from `/proc`, stopping agents, git status.
- The dry run of a restore and the decision to restore at boot: listings and one comparison.
- Two processes writing the history or the configuration at the same time: each read, change and write is one step.
- Drawing, key handling, the server, the MCP interface, notifications, search scoring, auto-close rules and task boards.
