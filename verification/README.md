# Verified model of the workspace frontend

This project models the parts of the TypeScript frontend that carry real logic and proves what they promise. Pure
code is modelled as functions, code that updates state step by step as classes and loops; each such method is proved to
take exactly the step that a specification function prescribes, and the properties are proved about that function,
over every input or every run.

- **Layout** (`Layout`, `Geometry`, `Directional`, `FocusGeometry`, `FocusMoves`, `FocusFacing`, `Rendering`): the split
  tree of a workspace, the rectangles that `ratio` and `1 - ratio` give its panes, the directional search of the arrow
  keys, the edits of the tree, and the choice of what is on the screen. The theorems connect a search that reads only
  the shape of the tree with the geometry on the screen, for every tree, ratio and writing direction.
- **Reconnect** (`ReconnectSteps`, `ReconnectSafety`, `ReconnectRuns`, `ReconnectProgress`, `ReconnectOutcomes`,
  `ReconnectDriver`): the per-pane retry loops as a state machine whose steps are drops, firing timers, settling
  connects and cancels in any order. Run objects live in a heap map, because a superseded loop goes on holding its own.
- **Sessions** (`SessionMaps`, `Connections`, `SessionRestore`): the two maps between panes and sessions under five event
  handlers, what each kind of connection can do and where it leads, and the restore loop, whose every await lets the
  user connect panes and change workspace.
- **Workspaces and names** (`Workspaces`, `FreshNames`): walks over parent links that may dangle or form cycles, and
  the loops that look for a free session name.
- **Text** (`Matching`, `Pattern`, `FindReplace`, `Quoting`, `Directories`): find and replace, quoting of dropped paths,
  and the directory picker.
- **Browser tabs and events** (`BrowserTabs`, `BrowserChrome`, `LatestEvents`): editors mirrored into the active tab and
  stored per workspace, and the handlers that drop events not newer than what they hold.

`dafny verify dfyconfig.toml` checks everything.

## Where the code and its comments differ

The model follows the code.

- A horizontal split is mirrored when the document runs right to left, but the directional search is not. So the left
  and right keys agree with the screen exactly when the row is not mirrored (`ArrowKeysMatchScreenIff`).
- The pane returned always starts on the right edge line but need not face the current one. It does exactly when less of
  the crossed split's near side lies before the current pane than the corner leaf of the far side takes up
  (`NeighborFacesIff`), and for all ratios exactly when the shape of the two sides says so (`FacesForAllRatiosIff`).
- `splitOrMove` is described as splitting in the asked direction; a split always puts the new pane second, so it lands
  there exactly for right and down (`SplitLandsInDirectionIff`).
- The retry loop is described as making five attempts. It goes on to another attempt exactly as often as connects are
  rejected (`RowCountsRejections`) and gives up exactly at the fifth rejection (`GivesUpIff`). But `connectPane` reports
  its errors itself and never rejects: no loop passes its first attempt (`SwallowedErrorsAllowOneAttempt`), and that
  attempt ends in a success message whether or not the pane is connected (`SuccessReportedEitherWay`). All other
  reconnect results let the connect resolve or reject freely, as the loop is written to handle.
- A retry connects in the workspace that is active when its timer fires, not in the one that dropped
  (`AttemptReachesItsWorkspaceIff`, `SwitchMisdirectsAttempt`).
- Session restore is described as attaching nothing on a guess and as probing panes over their own connections. Every
  kind of connection has `sessionPersistence`, so no probe is ever issued (`NoProbeIsIssued`) and one list decides about
  all panes (`OneListDecides`), those on other hosts included (`MixedWorkspaceGuesses`). Over SSH the list need not come
  from the host of the workspace's own connection either: the backend asks through any live session that bears the
  workspace's id, whichever pane opened it, or through a sibling's (app/src-tauri/src/lib.rs:6522-6539,
  `LivePaneAnswersForAnother`). A decision rests on the answer of the pane's own host exactly when that is the host that
  listed (`ConfirmedIff`). A workspace is restored without guesses in every run exactly when every host that may answer
  for it is the host of every candidate (`NothingOnAGuessIff`).
- A pane that reconnects while live leaves its old session mapped to it; the exit of that old session then disconnects
  the pane (`LateExitDropsLivePane`, `ExitDropsLivePaneIff`). A connect that completes after its pane was swept away
  leaves a session that no later sweep removes (`LateConnectSurvivesSweep`, `SweepIsCompleteIff`).
- The recounted "n of N" index is the rank of the selected match only for the first match (`RecountIsRankIff`,
  `SecondMatchIsMiscounted`).
- Browser tabs switched or closed while no workspace is shown are not stored (`PersistedIff`,
  `SwitchWithoutWorkspaceIsForgotten`).
- Clearing an agent run forgets its number, so an older event that arrives late brings the run back
  (`LateUpdateReturns`); `OrderIndependentIff` says exactly when the order of delivery does not matter.

## Model

| member | source | states |
|---|---|---|
| Layout.PaneIdsAreLeaves | app/src/types.ts:300-312 | lookup by id succeeds exactly for the ids of the in-order walk and returns the leaf of that id |
| Layout.DistinctMeansNoRepeat | app/src/App.tsx:1277-1280 | disjoint subtrees at every split is the same as no id occurring twice in the in-order walk |
| Layout.PrunedLeaves | app/src/types.ts:319-328 | pruning leaves exactly the original in-order leaves with the hidden ones filtered out, and fails only when none is left; shares stay strictly between 0 and 1 |
| Layout.CloseIsPrune | app/src/layoutOps.ts:79-88 | closing a leaf succeeds exactly for a leaf of a tree with more than one, and then equals pruning that pane |
| Layout.SplitThenClose | app/src/layoutOps.ts:57-72 | splitting succeeds exactly for a pane of the tree and puts the new pane directly after it in the walk; closing the new pane restores the tree |
| Layout.Clamp | app/src/layoutOps.ts:90-95 | the ratio set is the allowed one, from 0.05 to 0.95, that is nearest to the wanted one |
| Geometry.LayoutTiles | app/src/LayoutView.tsx:368-388 | the leaf rectangles of every layout have positive size, lie inside the root, are pairwise interior-disjoint and their areas sum to the root's |
| Geometry.EachPointInOneLeaf | app/src/LayoutView.tsx:368-388 | every screen position inside the workspace lies in exactly one leaf rectangle, found by descending the tree |
| Geometry.UpdateMovesOnlyItsPanes | app/src/App.tsx:5905-5919 | a ratio update keeps the pane order and every rectangle of a pane not under the named split |
| Geometry.RatioAfterUpdate | app/src/App.tsx:5905-5919 | after an update the named split has the clamped ratio, every other split its old one, an unknown split changes nothing, and panes, splits and directions stay |
| Geometry.LastUpdateWins | app/src/App.tsx:2272-2295 | a second update of the same split makes the first irrelevant, so drag steps before the commit are forgotten |
| Geometry.ResetHalvesEverySplit | app/src/App.tsx:3532-3535 | after an even distribution every split is half and half; panes, splits and directions stay |
| Geometry.ResetSharesByDepth | app/src/App.tsx:3532-3535 | after an even distribution each leaf holds 2 to the minus its depth of the area, whatever the ratios were |
| Geometry.SplitHalves | app/src/layoutOps.ts:57-72 | after a split the target has the first half of its rectangle in the asked direction and the new pane the second |
| Geometry.SplitLeavesOthers | app/src/layoutOps.ts:57-72 | after a split every other pane is where it was |
| Geometry.RatioAfterSplit | app/src/layoutOps.ts:57-72 | the fresh split has its own id and ratio one half, and every other split keeps its ratio |
| Geometry.TilingSurvivesEdits | app/src/layoutOps.ts:57-101 | after any sequence of resizes, even distributions, splits and closes the panes still tile the workspace; resizes and distributions keep the order |
| Geometry.PruneNeverShrinks | app/src/App.tsx:5091-5101 | popping panes out never makes a remaining pane narrower or lower |
| Directional.ScanFindsNeighbor | app/src/App.tsx:1136-1147 | scanning the path from the pane to the root for the first crossed split yields the same pane as recursion on the tree |
| Directional.PathRecorder.Walk | app/src/App.tsx:1113-1125 | the recursive walk finds the pane exactly when the tree has it, and appends its path leaf-first and nothing otherwise |
| Directional.Descend | app/src/App.tsx:1139-1142 | the descent ends in the first or the last leaf of the sibling |
| Directional.FindDirectionalNeighbor | app/src/App.tsx:1108-1147 | the whole search returns the neighbour, and nothing for an unknown pane |
| FocusGeometry.NeighborIsGeometric | app/src/App.tsx:1108-1147 | for all layouts with distinct ids, the pane returned is another pane that starts on the edge line where the current one ends, and none is returned exactly when the current pane touches the workspace edge on that side |
| FocusGeometry.ArrowKeysMatchScreenIff | app/src/Divider.tsx:20-36 | the neighbour lies on the named side of the screen exactly when the row is not mirrored |
| FocusGeometry.NeighborReachesBack | app/src/App.tsx:1131-1142 | the neighbour always begins, along the edge line, before the current pane ends there; left and up, the mirror image |
| FocusMoves.NeighborAdvances | app/src/App.tsx:1108-1147 | right and down always lead strictly later in the walk, left and up strictly earlier |
| FocusMoves.HeldKeyNeverRevisits | app/src/App.tsx:1150-1158 | repeated moves in one direction never return to a pane already left |
| FocusMoves.HeldKeyEndsInSplit | app/src/App.tsx:1150-1162 | repeated moves in one direction run out of neighbours after fewer moves than there are panes, so a held key ends in a split |
| FocusMoves.BackFromNeighbor | app/src/App.tsx:1108-1147 | a move and its reverse land on the corner leaf of the near side of the crossed split, so they return to the start exactly from that leaf |
| FocusMoves.SplitAppearsAhead | app/src/layoutOps.ts:57-72 | after a split along the heading the new pane is the neighbour for right and down; for left and up the neighbour is the old one |
| FocusMoves.SplitLandsInDirectionIff | app/src/App.tsx:1147-1162 | the split made because there was no neighbour lands in the asked direction exactly for right and down |
| FocusMoves.PaneFocus.SplitOrMove | app/src/App.tsx:1150-1162 | focuses the neighbour if there is one, otherwise asks once for a split of the current pane along the heading's axis; nothing without a layout and a focus |
| FocusMoves.PaneFocus.Hold | app/src/App.tsx:1150-1162 | pressing one heading again and again focuses the panes ahead in turn and, at the first without a neighbour, asks once for a split of that pane |
| FocusFacing.PaneBegins | app/src/LayoutView.tsx:374-384 | a pane begins after the share of the extent that the ratios on its path leave before it |
| FocusFacing.FirstLeafEnds | app/src/LayoutView.tsx:374-384 | the first leaf takes up the product of the ratios along the first children |
| FocusFacing.NeighborFacesIff | app/src/App.tsx:1127-1142 | the neighbour faces the current pane exactly when, along the divider, a smaller share of the crossed split's near side lies before the pane than the corner leaf of the far side takes up; left and up, the mirror image |
| FocusFacing.FacesForAllRatiosIff | app/src/App.tsx:1127-1142 | for all ratios the neighbour faces the pane exactly when no split along the divider has the pane on its far side within the near side, or none lies on the way to the corner leaf |
| FocusFacing.GridNeighborFacesIff | app/src/App.tsx:1131-1142 | in a grid of two columns, right from the lower left pane always leads to the upper right one, which it faces exactly when the left column is cut higher up |
| Rendering.BaseLeaves | app/src/App.tsx:5013-5018 | the tab strip lists the visible panes in order, or all panes when every one is popped out |
| Rendering.NoHiddenPaneOnScreen | app/src/App.tsx:5089-5128 | what is rendered is the pruned grid or a leaf the tab strip lists, and holds no hidden pane unless all are hidden |
| Rendering.TabsModeShowsOneTab | app/src/App.tsx:5110-5127 | in tabs mode the active pane is shown if the strip lists it, otherwise the first listed one; an empty active id shows the grid |
| Rendering.TabsModeIsSingleLeaf | app/src/App.tsx:5114-5127 | in tabs mode, with no active pane or any non-empty active id, a single leaf is shown, and one the tab strip lists |
| Rendering.MaximizedPaneFills | app/src/App.tsx:5114-5125 | outside tabs mode a maximized pane of the grid fills the screen, and the grid shows otherwise |
| Rendering.ScreenIsTiled | app/src/App.tsx:5089-5128 | whatever is rendered tiles the workspace, and no remaining pane of the grid is smaller than before the pop-out |
| ReconnectSafety.NextKeeps | app/src/App.tsx:741-782 | every step keeps the invariant: one row per pane of the run map, each current run uncancelled and waiting for a timer or an attempt, timers only of current runs |
| ReconnectSafety.FiredLaunches | app/src/App.tsx:2527-2535 | in a valid state the guards at the head of an attempt never stop a timer that fires: its run is current, uncancelled and below the limit |
| ReconnectRuns.RowsNameTheRuns | app/src/App.tsx:741-782 | in every reachable state the rows and the run map name the same panes, each once |
| ReconnectRuns.EachRunWaitsForOneThing | app/src/App.tsx:2508-2572 | in every reachable state each run in the map is uncancelled, has exactly one armed timer or unsettled attempt, and its row counts at most five |
| ReconnectRuns.EveryTimerIsCurrent | app/src/App.tsx:2562-2571 | in every reachable state each armed timer belongs to a current run, its backoff index is in range and its delay is the one for the attempts made |
| ReconnectRuns.SupersededRunIsInert | app/src/App.tsx:2548-2553 | the settling of an attempt of a superseded or cancelled run changes nothing but that attempt |
| ReconnectRuns.NeverCurrentAgain | app/src/App.tsx:2512-2518 | a run that is no longer current is never current again |
| ReconnectRuns.StepLeavesSibling | app/src/App.tsx:2508-2518 | a step about one pane leaves every other pane's run, row, timer and attempt untouched |
| ReconnectProgress.RowCountsAttemptsOfItsRun | app/src/App.tsx:2531-2535 | over every run of the system a row shows exactly the attempts that its current run has started |
| ReconnectProgress.EveryRunIsBounded | app/src/App.tsx:2554-2563 | over every run of the system one reconnect loop takes at most ten steps |
| ReconnectProgress.EveryDroppedPaneIsRetried | app/src/App.tsx:725-733 | when panes drop together, in any order and with repeats, each of them ends with a loop waiting for its first attempt |
| ReconnectProgress.RowCountsRejections | app/src/App.tsx:2531-2564 | over every run of the system a row shows one attempt for each rejected connect of its current run, and one more while an attempt is in flight |
| ReconnectProgress.GivesUpIff | app/src/App.tsx:2551-2561 | over every run of the system a rejected connect of a current run ends its loop in failure exactly when it is the run's fifth |
| ReconnectProgress.SwallowedErrorsAllowOneAttempt | app/src/App.tsx:2439-2503 | if no connect rejects, no row ever shows a second attempt and no loop ever reports failure |
| ReconnectOutcomes.DropRestartsLoop | app/src/App.tsx:2508-2526 | after a drop its pane has one loop, for this drop, with a row at zero of five attempts, that waits for one timer of one second and nothing else; the run in progress is marked cancelled and superseded, and nothing is asked for |
| ReconnectOutcomes.NothingToContinue | app/src/App.tsx:4036-4044 | a drop for another reason, and the firing or settling of what is no longer pending, change nothing |
| ReconnectOutcomes.OnlyTheUserMoves | app/src/App.tsx:2361-2397 | no step but the user's own changes the active workspace, and changing it leaves loops, rows and requests as they are |
| ReconnectOutcomes.RowsStayInOrder | app/src/App.tsx:741-782 | a step about one pane leaves the rows of all others as they are and in order, and the row of a fresh loop comes last |
| ReconnectOutcomes.FiringConnects | app/src/App.tsx:2360-2410 | a firing timer asks for a connect with the pane, persistence and session of the recorded drop in the workspace that is active then; the row counts one attempt more, and the loop waits for that attempt alone |
| ReconnectOutcomes.AttemptReachesItsWorkspaceIff | app/src/App.tsx:2361-2397 | the attempt is made in the drop's workspace exactly when that one is active as the timer fires |
| ReconnectOutcomes.SwitchMisdirectsAttempt | app/src/App.tsx:2361-2397 | a run in which a switch of workspace sends the retry to the other workspace |
| ReconnectOutcomes.SuccessReportedEitherWay | app/src/App.tsx:2540-2550 | the run of a drop, its timer and a connect that returns, connected or not, ends the loop with a success message |
| ReconnectOutcomes.ResolveEndsLoop | app/src/App.tsx:2546-2550 | a resolved connect of a current run removes its row, run and timer and reports success |
| ReconnectOutcomes.RejectRetriesUntilFive | app/src/App.tsx:2551-2564 | a rejected connect of a current run keeps run and row and waits for the backoff after the attempts shown, until the row shows five; then the loop is gone, failure is reported and the server told |
| ReconnectOutcomes.CancelEndsLoop | app/src/App.tsx:773-782 | cancelling a pane removes its row, run and timer, marks the run cancelled and tells the server, whether or not it had a loop |
| ReconnectOutcomes.CancelAllStopsEverything | app/src/App.tsx:770-782 | cancelling without a pane leaves no row, no run and no armed timer, marks every run cancelled and tells the server about each row, in row order |
| ReconnectDriver.Driver.StartReconnect | app/src/App.tsx:2508-2572 | the handler of a drop takes the step of the state machine and keeps its invariant |
| ReconnectDriver.Driver.AttemptOnce | app/src/App.tsx:2527-2545 | the timer callback, up to its await, takes the step of the state machine and keeps its invariant |
| ReconnectDriver.Driver.ConnectResolved | app/src/App.tsx:2546-2550 | the continuation after a connect that resolved takes the step of the state machine and keeps its invariant |
| ReconnectDriver.Driver.ConnectRejected | app/src/App.tsx:2551-2564 | the continuation after a connect that rejected takes the step of the state machine and keeps its invariant |
| ReconnectDriver.Driver.CancelReconnect | app/src/App.tsx:773-782 | cancelling one pane or every row takes the step of the state machine and keeps its invariant |
| SessionMaps.NoSharedSession | app/src/App.tsx:2411-2412 | on every run with fresh session ids each connected pane is mapped back to itself, so no two panes share a session |
| SessionMaps.StepLeavesOtherPanes | app/src/App.tsx:2411-2412 | a step changes the session of no pane but those it is about; a connect puts its pane on the session, every other such step takes the pane off |
| SessionMaps.StepLeavesOtherSessions | app/src/App.tsx:3998-4002 | a session is unmapped exactly by its own exit or with the pane that is on it, and mapped exactly by its connect |
| SessionMaps.TermsLastUntilSwept | app/src/App.tsx:1602-1618 | over every run a pane has a terminal exactly when one was made and no layout change since has found the pane gone |
| SessionMaps.AlwaysInverseIff | app/src/App.tsx:947-948 | the maps are mutual inverses all along a run exactly when connects land only on panes that are not live |
| SessionMaps.VisitLeavesNoTrace | app/src/App.tsx:2580-2584 | after any run that leaves the pane and its session alone, a disconnect or the exit of the session makes the maps what they would be without the connect |
| SessionMaps.ExitDropsLivePaneIff | app/src/App.tsx:3998-4002 | after any run, the exit of a session disconnects a pane that is on another session exactly when the pane abandoned the exiting one earlier in the run |
| SessionMaps.LateExitDropsLivePane | app/src/App.tsx:3998-4002 | a run in which the exit of the old session disconnects a reconnected pane |
| SessionMaps.AlwaysHasTermsIff | app/src/App.tsx:2363-2412 | every connected pane has a terminal all along a run exactly when no connect completes for a pane that has none |
| SessionMaps.LateConnectSurvivesSweep | app/src/App.tsx:1607-1616 | a run in which a connect completes after its pane was swept away, and the pane stays connected through later sweeps |
| SessionMaps.SweepIsCompleteIff | app/src/App.tsx:1602-1618 | after any run, every layout change leaves connected just the panes that a layout holds exactly when all connected panes have terminals |
| SessionMaps.Registry.OnConnected | app/src/App.tsx:2411-2412 | the end of a connect takes the step of the state machine |
| SessionMaps.Registry.DisconnectPane | app/src/App.tsx:2580-2584 | the map part of disconnect, and of kill, takes the step of the state machine |
| SessionMaps.Registry.OnExit | app/src/App.tsx:3998-4002 | the exit handler takes the step of the state machine |
| SessionMaps.Registry.ReconcilePanes | app/src/App.tsx:1602-1618 | visiting the terminals one by one drops exactly the panes that no layout holds, with their sessions |
| SessionRestore.CandidateIsRestorable | app/src/App.tsx:3241-3271 | a candidate is one of the panes that come back, with that session, and each of them is one |
| SessionRestore.CandidatesComeBack | app/src/App.tsx:3235-3271 | the candidates are, in layout order and one by one, exactly the terminal panes that are not live and have a non-empty session: the one remembered for the pane, or the workspace's own for the first pane without a hint; each over the pane's connection or else the workspace's |
| Connections.EveryWorkspacePersists | app/src/types.ts:489-607 | over every kind of connection sessions persist, so the capabilities of every workspace say so on every platform |
| Connections.SessionBoundIff | app/src/types.ts:585-607 | a workspace must be connected before it is asked exactly when its own connection is SSH or, for a local one on Windows, when its first pane with another connection has SSH |
| Connections.SameHostIff | app/src-tauri/src/lib.rs:6505-6515 | two connections lead to the same host exactly when both are local, agree on server, user and port, or name the same distribution |
| SessionRestore.OneListDecides | app/src/App.tsx:3303-3467 | whatever the user does meanwhile, one list decides: each connect names a session on it, targets a pane not recorded live and runs under the starting workspace, and a hint is dropped only when a non-empty list lacks it; the list comes from one of the hosts that may answer |
| SessionRestore.DropForgetsOneHint | app/src/App.tsx:3426-3431 | a dropped hint is the one of its pane and no other |
| SessionRestore.NoProbeIsIssued | app/src/App.tsx:3296-3371 | no restore ever asks a pane's own host |
| SessionRestore.ConfirmedIff | app/src/App.tsx:3376-3432 | a connect or a dropped hint rests on an answer of the pane's own host exactly when that is the host that listed |
| SessionRestore.NothingOnAGuessIff | app/src/App.tsx:3362-3422 | every possible run of a restore acts only on answers of the panes' own hosts exactly when each host that may answer for the workspace is the host of each candidate |
| SessionRestore.MixedWorkspaceGuesses | app/src/App.tsx:3376-3432 | a workspace on one server with a pane on another: a restore attaches the pane, or drops its hint, by the answer of the wrong server |
| SessionRestore.LivePaneAnswersForAnother | app/src-tauri/src/lib.rs:6522-6539 | a workspace whose only candidate is on the workspace's own server, with another pane live on a second one: the second server lists, and by its list the candidate is attached or loses its hint |
| SessionRestore.ProbedOnce | app/src/App.tsx:3373-3410 | run without a list for the whole workspace, the loop would probe each distinct connection at most once, even after "could not ask"; with a list it probes none |
| SessionRestore.OneDecisionEach | app/src/App.tsx:3415-3467 | the loop decides about the candidates in order, one decision each, and leaves some undecided only when another workspace became active |
| SessionRestore.EveryCandidateIsDecided | app/src/App.tsx:3303-3467 | a restore that hears of sessions decides about every candidate, in order, and leaves some undecided only when another workspace is active |
| SessionRestore.Restorer.AliveFor | app/src/App.tsx:3376-3410 | answers from the workspace's list, then from the cache, and otherwise probes once and caches the answer |
| SessionRestore.Restorer.CollectCandidates | app/src/App.tsx:3235-3271 | the loop over the panes collects the candidates in layout order |
| SessionRestore.Restorer.RestoreFirst | app/src/App.tsx:3415-3463 | with a list that lacks its session the candidate's hint is removed and no other; otherwise the decision is one the rules allow |
| SessionRestore.Restorer.RestoreEach | app/src/App.tsx:3414-3468 | under any interference at its awaits the loop leaves a trace that the restore rules allow, and the hints it drops are gone |
| SessionRestore.Restorer.RestoreSessions | app/src/App.tsx:3183-3470 | the whole restore leaves a trace that the rules allow from the state in which it started, does nothing a second time, and with either setting off does no more than forget the hints of panes that are gone |
| Workspaces.SubtreeOf | app/src/App.tsx:1720-1737 | for any parent links, cycles included, the loop ends and returns exactly the existing workspaces reachable from the clicked one, each once, the clicked one first |
| Workspaces.PushChildren | app/src/App.tsx:1729-1734 | one pass queues exactly the unseen children of a workspace, each once |
| Workspaces.FindIsFirst | app/src/App.tsx:1720-1737 | a lookup by id finds the first workspace that has it |
| Workspaces.NearestFlaggedIsNear | app/src/App.tsx:2917-2922 | the nearest flagged ancestor is fewer hops away than there are workspaces, on every link structure, so the hop bound loses nothing |
| Workspaces.ProjectRootOf | app/src/App.tsx:2913-2924 | returns the nearest flagged ancestor-or-self, at any distance, and the starting id when there is none |
| FreshNames.CandidatesDiffer | app/src/App.tsx:3053 | no two of the names tried are equal |
| FreshNames.CandidateReadsBack | app/src/App.tsx:3053 | the first name tried is the base, each later one the base, a hyphen and its number in decimal digits |
| FreshNames.DecimalRoundTrip | app/src/App.tsx:3053 | the decimal suffix determines its number |
| FreshNames.TakenBoundsTries | app/src/App.tsx:3053 | if the first k names are all taken then at least k names are taken, so the search ends |
| FreshNames.FreshName | app/src/App.tsx:3052-3053 | returns the first free name of base, base-2, base-3 and so on, for every finite set of taken names |
| FreshNames.OnlyPlainIsPlain | app/src/App.tsx:3043-3046 | the base keeps the plain characters of the workspace's name, all of them, in order |
| FreshNames.NewSessionRowName | app/src/App.tsx:3043-3053 | the name is non-empty, has only plain characters, is on no list of taken names and is the first free one of its sequence, whose base is the plain part of the workspace's name or the default |
| FreshNames.NewSessionBeside | app/src/PaneView.tsx:637-648 | with an answer from the host the first free name, without one the base name |
| Matching.MatchesSeparate | app/src/FileEditor.tsx:268-275 | the matches are occurrences in order, none overlapping the next |
| Matching.EveryOccurrenceIsCovered | app/src/FileEditor.tsx:268-275 | every occurrence overlaps a match that begins no later, so the matches are leftmost |
| Matching.GreedyIsMaximum | app/src/FileEditor.tsx:268-275 | no set of non-overlapping occurrences is larger than the set of matches |
| Matching.MatchesArePacking | app/src/FileEditor.tsx:268-275 | the matches are such a set themselves, so the maximum is attained |
| Matching.ReplaceKeepsTheRest | app/src/FileEditor.tsx:268-275 | text and result are the same segments with each match, equal to the query up to case folding, exchanged for the replacement |
| Matching.ReplaceLength | app/src/FileEditor.tsx:268-275 | the result length is the old length plus the number of matches times the difference of the lengths |
| Matching.ReplaceBySelf | app/src/FileEditor.tsx:268-275 | a case-sensitive replacement of a query by itself changes nothing |
| Pattern.EscapeDenotesQuery | app/src/FileEditor.tsx:148 | the escaped query, read by the Pattern grammar in section 22.2.1 of ECMA-262, is exactly the query's characters as literals |
| Pattern.RawQueryDenotesItselfIff | app/src/FileEditor.tsx:148 | without escaping this holds exactly when the query has no syntax character |
| FindReplace.StepsAroundTheCircle | app/src/FileEditor.tsx:200-207 | with the selection on match k of n, next selects match k+1 and previous match k-1, modulo n |
| FindReplace.NextUndoesPrevious | app/src/FileEditor.tsx:200-207 | find next and find previous undo each other |
| FindReplace.PressesCycle | app/src/FileEditor.tsx:200-207 | repeated presses of next visit the matches in turn and are back after n |
| FindReplace.NextFromAnywhere | app/src/FileEditor.tsx:201-202 | from any caret, next selects the first match at or after it, or the first of all |
| FindReplace.PreviousFromAnywhere | app/src/FileEditor.tsx:203-207 | from any caret, previous selects the last match that ends at or before it, or the last of all |
| FindReplace.MatchesStand | app/src/FileEditor.tsx:143-151 | there are matches exactly when the query stands somewhere, letter for letter with the case switch on and up to case folding with it off, and it stands at each of them |
| FindReplace.CollectMatches | app/src/FileEditor.tsx:188-194 | the exec loop collects every match of the greedy pass in order |
| FindReplace.CountMatches | app/src/FileEditor.tsx:163-179 | the recount loop returns the number of matches, and 1 or 0 as index according to whether the first match begins by the caret |
| FindReplace.ReplaceIn | app/src/FileEditor.tsx:272-275 | copying stretch by stretch yields the text with every match replaced, and the number of matches |
| FindReplace.Editor.FindNext | app/src/FileEditor.tsx:182-217 | if the query stands somewhere, compared as the case switch says, selects the target match, where it stands, with its rank as index; otherwise selects nothing and counts zero |
| FindReplace.Editor.ReplaceAll | app/src/FileEditor.tsx:268-285 | replaces every match, compared as the case switch says, then puts the caret at the start and recounts; changes nothing where the query does not stand |
| FindReplace.Editor.RecountMatches | app/src/FileEditor.tsx:157-180 | the counter shows the number of matches as the case switch says, zero exactly when the query does not stand, with the recounted index, and zeros without a query or a text area |
| FindReplace.RecountFromAnywhere | app/src/FileEditor.tsx:172-174 | from any caret the recounted index is one if some match begins at or before it and zero otherwise |
| FindReplace.RecountIsRankIff | app/src/FileEditor.tsx:172-174 | with the selection on match k the recounted index is its rank exactly when it is the first match |
| FindReplace.SecondMatchIsMiscounted | app/src/FileEditor.tsx:172-174 | a text whose second match is selected and counted as the first |
| Quoting.LexQuoted | app/src/PaneView.tsx:740-741 | a quoted string followed by a space is read as exactly one word, the string itself, whatever it contains |
| Quoting.ObtainedAreUsable | app/src/PaneView.tsx:864-868 | the paths to type are those that were obtained and are not empty, all of them, in order |
| Quoting.DropRoundTrip | app/src/PaneView.tsx:864-868 | reading the typed text by the quoting and token rules of the POSIX.1-2017 Shell Command Language gives back exactly the list of obtained paths |
| Quoting.DropAfterPrefix | app/src/PaneView.tsx:864-868 | typed after any text that ends between two words, the drop adds exactly those words |
| Quoting.Terminal.Drop | app/src/PaneView.tsx:864-868 | the drop loop writes one quoted path and a space for each path that was obtained and is not empty |
| Directories.UpUndoesDown | app/src/DirPicker.tsx:77-87 | a joined entry ends in a slash and its name, and going up from it returns to the directory, without slashes at its end |
| Directories.UpCutsLastName | app/src/DirPicker.tsx:78-83 | going up from any path cuts off its last name, and a name alone leads to the root |
| Directories.UpReachesRoot | app/src/DirPicker.tsx:78-83 | going up often enough reaches the root from every path |
| Directories.RecencyIsMostRecentFirst | app/src/DirPicker.tsx:68-69 | without cutting, the list holds every pushed directory once, the most recently pushed first |
| Directories.StoredIsRecencyCut | app/src/DirPicker.tsx:68-75 | cutting to eight at every push gives the eight most recently pushed distinct directories of the whole history |
| Directories.RecentDirs.Push | app/src/DirPicker.tsx:58-75 | a push changes only its workspace's list, keeps the stored list that of the history, and a refused write changes nothing |
| BrowserTabs.TabsStaySound | app/src/BrowserChrome.tsx:438-493 | over every run tab ids stay distinct, a tab remains, the active id is one of them, and while a workspace is shown the editors equal the active tab |
| BrowserTabs.OtherTabsUntouched | app/src/BrowserChrome.tsx:338-357 | no step within a workspace changes a tab that is not active, and a switch changes none |
| BrowserTabs.EditedPortReachesTheTab | app/src/BrowserChrome.tsx:338-357 | an edit of the port reaches the active tab and the stored tabs of the workspace and nothing else; with no workspace shown it changes the editor alone |
| BrowserTabs.EditedPathReachesTheTab | app/src/BrowserChrome.tsx:338-357 | the same for an edit of the path |
| BrowserTabs.SwitchShowsTheTab | app/src/BrowserChrome.tsx:438-452 | switching activates the tab, shows its port and path, keeps all tabs and stores which is active; an unknown tab changes nothing |
| BrowserTabs.StorageOfOthersKept | app/src/BrowserChrome.tsx:113-153 | no step touches what is stored for a workspace that is not shown, nor the older keys |
| BrowserTabs.NewTabIsLastAndActive | app/src/BrowserChrome.tsx:461-475 | a new tab comes last, becomes active, inherits the port of the editors, has no path and is stored; with no workspace shown nothing happens |
| BrowserTabs.CloseActivatesTheTabBefore | app/src/BrowserChrome.tsx:477-493 | closing takes out just that tab and stores the rest; the one before it takes over, with the editors, if it was active, or the next if it was the first; the last tab stays |
| BrowserTabs.PersistedIff | app/src/BrowserChrome.tsx:438-493 | a step leaves storage behind the tabs exactly when it rearranges them while no workspace is shown |
| BrowserTabs.ShowLoadsStored | app/src/BrowserChrome.tsx:113-153 | showing a workspace shows its stored tabs with the stored active one, or the first if that one is gone, or one tab from the older port and path; the editors and storage agree with what is shown |
| BrowserTabs.HidingChangesNothing | app/src/BrowserChrome.tsx:306-312 | leaving for no workspace keeps tabs, editors and storage |
| BrowserTabs.LeaveAndReturn | app/src/BrowserChrome.tsx:306-333 | leaving a workspace for another or for none, any run that does not rearrange its tabs while they are hidden, and coming back: the same tab is active, and tabs and editors are as before exactly when another workspace was shown in between or the editors hold what they held |
| BrowserTabs.SwitchWithoutWorkspaceIsForgotten | app/src/BrowserChrome.tsx:441-452 | a run from the start in which a switch made while no workspace is shown is lost on return |
| BrowserTabs.MirrorAtRest | app/src/BrowserChrome.tsx:345-353 | between operations the mirror effect has nothing to do |
| BrowserChrome.CopyInto | app/src/BrowserChrome.tsx:346-353 | the mapping pass edits exactly the active tab and reports a change exactly when there is one |
| BrowserChrome.Chrome.MirrorEffect | app/src/BrowserChrome.tsx:338-357 | copies the editors into the active tab and stores the tabs if that changed one, unless held back |
| BrowserChrome.Chrome.SetSelectedPort | app/src/BrowserChrome.tsx:338-357 | an edit of the port, with the effect it triggers, takes the step of the state machine and keeps the invariant; while held back it changes the port alone |
| BrowserChrome.Chrome.SetPathInput | app/src/BrowserChrome.tsx:338-357 | the same for an edit of the path |
| BrowserChrome.Chrome.SwitchTab | app/src/BrowserChrome.tsx:438-452 | the signal updates under the flag activate the tab and write no editor value into any tab |
| BrowserChrome.Chrome.AddTab | app/src/BrowserChrome.tsx:461-475 | takes the step of the state machine and keeps the invariant |
| BrowserChrome.Chrome.RemoveTab | app/src/BrowserChrome.tsx:477-493 | takes the step of the state machine and keeps the invariant |
| BrowserChrome.Chrome.Show | app/src/BrowserChrome.tsx:306-357 | a change of workspace runs the loading effect and then the mirror effect, takes the step of the state machine and keeps the invariant |
| LatestEvents.FirstNewestWins | app/src/App.tsx:4394-4400 | however updates and clears are mixed, the first delivered update with the highest number ends up held |
| LatestEvents.OrderIndependentIff | app/src/App.tsx:4381-4428 | what is held depends only on the set of delivered events, not on order or repetition, exactly when for each pane every event without a number has the last word or, if there is none, the newest update is unique and no clear outranks updates it could fall between |
| LatestEvents.UpdatesOrderIndependent | app/src/App.tsx:4419-4428 | the briefs held depend only on the set of delivered events once a number names one brief |
| LatestEvents.LateUpdateReturns | app/src/App.tsx:4407-4408 | two deliveries of the same update and clear, one leaving the pane empty and the other not |
| LatestEvents.PaneSignals.OnAgentRun | app/src/App.tsx:4391-4416 | the agent-run handler takes the step of the specification: it drops stale events, clears on the unknown state and otherwise shows number, timing and state as reported, the start only while the run lasts |
| LatestEvents.PaneSignals.OnBrief | app/src/App.tsx:4422-4427 | the brief handler takes the step of the specification: the entry is held unless the one held has its number or a higher one |

## Left out

- LeaveAndReturn: starts from storage that is in step with the tabs; `PersistedIff` says which steps keep it so.
- TabsStaySound: assumes that a new tab's id, a time stamp with a random part, is not in use, and that stored lists have distinct ids.
- NoSharedSession: assumes that the backend never hands out a session id twice.
- TabsModeIsSingleLeaf: assumes that no pane has the empty string as id and that the active id is a pane's or absent.
- LayoutTiles: assumes ratios strictly between 0 and 1; stored ratios outside that range and NaN are not modelled, nor is the width of dividers. Ratios and lengths are exact reals, without the rounding of doubles.
- EveryTimerIsCurrent: records the delay before the random jitter of a fifth is added.
- EscapeDenotesQuery: reads patterns one term at a time; groups, classes and quantifiers are recognised as not literal but not interpreted.
- DropRoundTrip: covers what is typed from the start of a line and, with `DropAfterPrefix`, after text that ends between two words; expansions, operators, comments and double quotes on the line before it are not followed.
- Editor.ReplaceAll: runs the deferred caret move and recount as part of the command; edits in between are not modelled.
- RecentDirs.Load: a stored list is a list of strings; filtering of malformed entries is not modelled, and the same holds for stored tabs.
- Restorer.RestoreSessions: backend calls reply arbitrarily; the expiry of hints, waiting for a pane to mount and the log are not modelled, and panes of a layout have distinct ids.
- CandidatesComeBack: takes the hints as they are read, without the malformed, expired and empty ones that reading skips.
- NothingOnAGuessIff: `elsewhere`, the hosts of sibling workspaces' sessions and of panes that join the layout during the restore, is a parameter, and each host that may answer is taken to be able to answer in some run.
- HostOf: the default WSL distribution and the same one named explicitly count as different hosts, because its name is not known to the frontend.
- Driver: its run objects are entries of a map keyed by handle rather than heap objects, and timers are handles with a delay instead of a clock.
- SplitOrMove: a split is a request to the backend; the pane it creates is covered by `SplitLeaf`.
- Chrome.Show: a batch of signal writes within an effect is run in the order of the code, with the mirror effect once at its end.
- Rust backend, SSH, PTY, multiplexers, webviews and storage media: replies and refusals are free choices or maps.
- JSX, CSS, measurement, drag handling, icons and translations: no logic beyond what is modelled.
- Regex mode of find and replace, and replacing a single match: the first hands the query to the engine, the second adds an easy case.
- The modal dialogs that a failed connect may open: they do not touch the state modelled here.
- Navigation, dev tools and visibility of the native webview: they depend on backend timing.
- Swapping and patching leaves, file listing, wizards, monitor, notes, pairing: forms and formatting that would add easy members.
