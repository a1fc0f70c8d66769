# Tabverse: a verified model of its core logic

Tabverse is a desktop browser and terminal with a pane layout, user scripts,
agents that run under a supervisor, and one shortcut table read by two
programs. This project models the parts of it that carry state or geometry,
branch by branch, and proves what they promise. Code that computes by recursion
is modelled by functions; code that works step by step is modelled by methods
with loops, or by classes whose methods carry out the steps of a state machine,
and each of those is tied to the function or the step the theorems are about.

| files | what they model |
|---|---|
| `PaneTree`, `PaneLayout`, `PaneNeighbor`, `PaneTakeover` | the split tree, its layout over the unit square, the neighbour search, and who takes a closed pane's place |
| `PaneEdit`, `PaneRuns`, `PaneDirections` | splitting and closing panes, and what one undoes of the other |
| `PaneContents`, `PaneInPlace` | what the panes hold, and where they are on the screen, through splits and closes |
| `PaneResize`, `PaneSeams`, `PaneGrow`, `PaneEdges` | moving a divider by key or by drag |
| `PaneSessions` | runs of all four edits of a pane tree |
| `PaneStorage`, `PaneReading` | the session-file reader, the snapshot it must undo, and which values are trees |
| `TerminalTemplates`, `TemplateEdit` | saved layouts: capture, instantiate, edit one leaf |
| `LineBreaks`, `LineDiff` | the line diff: cutting into lines, dynamic program and walk back |
| `Persist`, `PersistHistory`, `PersistStore` | debounced persistence as one register per scope |
| `AgentGate`, `GateHistory`, `GateProcess` | the approval gate |
| `AgentReattach`, `ReattachOrder`, `SessionProcess` | event log, target and reattach |
| `AgentSupervisor`, `SupervisorHistory`, `SupervisorProcess` | client ownership of agent sessions, one frame at a time |
| `SupervisorLocks`, `SupervisorRecords`, `SupervisorRaces` | the same lock by lock: ownership, the stored records, and what comes in between |
| `Shortcuts`, `ChordNotation`, `Keys` | chords, their notation, occupancy, and the two compositions of the shortcut table |
| `Utf8Carry` | the chunked UTF-8 decoder (section 4 of RFC 3629) |
| `SidebarHover`, `SidebarModes`, `SidebarArbiter` | the three-timer hover machine, and the four modes it comes to |

Conventions. Shares and coordinates are exact reals, so every result about them
is about exact arithmetic. The geometric tolerance `EPS` is a parameter
`eps >= 0`; the theorems about it ask that panes be wider than `2 * eps`, which
at `eps == 0` every pane is. Concurrency is modelled by interleaved steps: the
gate and the reattach at the grain of their locks and channels, the supervisor
first with one dispatched frame as one step and then, in `SupervisorLocks`, with
what a frame does under one lock of the session registry, the owner table or the
store as a step, the get and the put of a record apart; `StartAlone` and
`GiveUpAlone` say that the steps of one frame with nothing in between are the whole
frame. Persistence is modelled with the steps between two awaits. Timers are
deadlines in milliseconds. Random ids are an injective stream, and a run's new
pane ids are names not used before. A refused store, a failed backend operation,
a log that cannot be read and a broken response body are inputs of the step they
befall. What a machine ends up with is told from its events: the `History` modules
say of the table, the claims, the values and the blocks which earlier events they
come from, so that no theorem rests on a note the machine itself takes.

Where the code does less than its comments or an obvious reading say, the model
follows the code, one lemma gives an input that shows it and another says
exactly when the promise holds:

| input | exact condition |
|---|---|
| `RemoveCanNestRows` | `RemoveAlternatesIff` |
| `SmallPairMovesOthers` | `SmallPairFallsBack`, over whole runs `PaneSessions.AnyRunKeepsShape` |
| `GrowShrinksEvenRowIff` | `GrowKeepsLengthIff` |
| `FailedSaveComesBack` | `StepsKeepCourse`, `UnsafeFailureEndsWrong` |
| `LoadingAgainLifts` | `BlockIsLastingIff`, `BlockLastsIff` |
| `RefusedPutSplitsStoreAndOwner` | `StoreIsTrueThroughout` |
| `GivingUpCanRobTheNewOwner`, `TwoStartsCanBothBegin`, `AStartCanEnterADeadSession` | `OwnershipSurvivesIff` |
| `ALateRecordHidesTheOwner`, `TwoReadersLoseAStart` | `RecordsFollowIff` |
| `ReusedIdLosesBoth` | `ParkIsSafeIff` |
| `LateAnswerIsRefused` | `AnswerCountsIff` |
| `CanDeliverTwice` | `AttachCanComeTwiceIff` |
| `ACompoundCanClashWithItself` | `SavingKeepsTheTable` |
| `MalformedSilencesTheRest` | `SilencedIff` |

`ConflictSplitsThem` says what a conflict in the shortcut table costs, and
`ASqueezedPaneIsLost` why `CaptureThenInstantiate` promises the shares only of
splits whose ratios are a distribution.
`PinWithoutResetIff` is about a host the application does not have: the exit
callback never asks for the pin, and the lemma says what the reset of the store's
subscriber is there for. The compound of `ACompoundCanClashWithItself` is no
recording either, since the settings view records single chords; it takes a
hand-edited configuration file.

## Model

| member | source | states |
|---|---|---|
| `LineDiff.DiffLines` | src/userscriptDiff.ts:35-84 | in every branch dropping additions gives the old lines and dropping removals the new, and these, with an LF between each and the next, spell the texts with plain breaks less one at the end; up to 4 000 000 cells the kept lines are a longest common subsequence among all, beyond none is kept; each changed run removes before it adds |
| `LineDiff.FillTable` | src/userscriptDiff.ts:48-58 | the flat 32-bit table, filled from its far corner, holds the longest-common-subsequence length of every pair of suffixes |
| `LineDiff.WalkTable` | src/userscriptDiff.ts:59-83 | the walk back keeps both sides, loses no line of the table's count and never removes right after adding |
| `LineDiff.Walk` | src/userscriptDiff.ts:59-83 | walk and leftovers together reconstruct both texts with a longest common subsequence, removals first |
| `LineDiff.Neighbours` | src/userscriptDiff.ts:48-58 | cells of the table that are next to each other differ by 0 or 1 |
| `LineDiff.AddLine` | src/userscriptDiff.ts:67-73 | after an addition the next choice cannot be a removal |
| `LineDiff.RemovedFirstFromNeighbours` | src/userscriptDiff.ts:28-33 | no removal directly after an addition gives the documented order of every changed run |
| `LineDiff.LcsBounds` | src/userscriptDiff.ts:48-58 | no common subsequence of two suffixes is longer than their cell |
| `LineDiff.AsLongAsTheTableIsLongest` | src/userscriptDiff.ts:48-83 | a common subsequence as long as the first cell is a longest one over all common subsequences |
| `LineDiff.FewestChanges` | src/userscriptDiff.ts:28-84 | keeping a longest common subsequence marks the fewest lines of any diff of the same texts |
| `LineBreaks.TrailingBreakIsIgnored` | src/userscriptDiff.ts:19-26 | a text with and without a last line break reads as the same lines exactly when the text is empty or does not end in a break character already |
| `LineBreaks.LinesSpellTheText` | src/userscriptDiff.ts:19-26 | no line holds an LF, and the lines joined by LFs are the text without the CRs that stand before an LF, less one LF at the end |
| `LineBreaks.SameLinesIff` | src/userscriptDiff.ts:19-26 | two texts have the same lines exactly when they are equal with plain breaks and at most one break less at the end |
| `LineBreaks.CrlfReadsTheSame` | src/userscriptDiff.ts:19-26 | a text and its CRLF spelling have the same lines |
| `LineBreaks.CutOneWay` | src/userscriptDiff.ts:19-26 | lines without breaks are determined by the text they join to |
| `PaneTree.Normalize` | src/paneTree.ts:93-102 | the result is always a distribution; usable ratios are scaled, any others become even shares |
| `PaneTree.NormalizeKeeps` | src/paneTree.ts:93-102 | a distribution is left as it is |
| `PaneTree.LeafPositionsDiffer` | src/paneTree.ts:105-110 | with distinct ids reading order names each pane once |
| `PaneLayout.LayoutOf` | src/paneTree.ts:261-282 | the accumulating loop yields the layout the theorems are about |
| `PaneLayout.Tiles` | src/paneTree.ts:261-282 | within any box a point lies in exactly one rectangle if it is in the box and in none otherwise |
| `PaneLayout.LayoutTiles` | src/paneTree.ts:261-282 | the layout tiles the unit square: reading order, positive sizes, areas summing to 1, each point in exactly one pane |
| `PaneLayout.PaneAt` | src/paneTree.ts:261-282 | exactly one pane holds a given point of the window |
| `PaneLayout.PanesApart` | src/paneTree.ts:261-282 | two panes share no point and none leaves the window |
| `PaneLayout.AreasAddUp` | src/paneTree.ts:261-282 | the panes of a subtree take its area between them |
| `PaneLayout.IdsAreLeaves` | src/paneTree.ts:105-110 | rectangles come in the order of the leaves |
| `PaneNeighbor.Neighbor` | src/paneTree.ts:307-351 | in screen coordinates, for each of the four directions: no answer exactly when the pane reaches the window's edge there, otherwise the first pane in reading order among those that start at that edge, or end at it, with the largest common length |
| `PaneNeighbor.CommonIsBoth` | src/paneTree.ts:328-331 | a point is in the box two panes have in common exactly when it is in both |
| `PaneNeighbor.BestNeighbor` | src/paneTree.ts:333-350 | the loop finds the first candidate of the largest overlap, and none only when there is no candidate |
| `PaneNeighbor.CandidateExists` | src/paneTree.ts:307-351 | a candidate exists exactly when the edge is not the window's |
| `PaneNeighbor.CandidateLiesAgainst` | src/paneTree.ts:307-351 | the tolerance lets no pane through that does not truly start at the edge |
| `PaneNeighbor.PaneBeyond` | src/paneTree.ts:307-351 | beyond an inner edge, across each of its points, a pane starts exactly there |
| `PaneNeighbor.WinnerIsBest` | src/paneTree.ts:339-349 | what wins the tolerant comparison is best in exact geometry too |
| `PaneEdit.FindLeafFinds` | src/paneTree.ts:118-126 | a leaf is found exactly when its id is among the leaves, and it is that leaf |
| `PaneEdit.SplitInserts` | src/paneTree.ts:161-222 | the new pane stands right after its target, every id stays, at most the new pane's and a wrapper's are added, and the tree stays proper; an unknown target changes nothing |
| `PaneEdit.SplitBranches` | src/paneTree.ts:161-222 | a split leaves no split below two children, whatever the ratios |
| `PaneEdit.RemoveDrops` | src/paneTree.ts:226-250 | whatever the ratios, exactly the one leaf goes, no id is added, ids stay distinct, no split falls below two children and a proper tree stays proper; the last pane and an unknown one are left alone |
| `PaneContents.SplitKeepsContents` | src/paneTree.ts:161-222 | a split leaves every pane's terminal, directory, profile and command as they were; the new pane has the directory given and nothing else |
| `PaneContents.RemoveKeepsContents` | src/paneTree.ts:226-250 | a close leaves every other pane's as they were |
| `PaneInPlace.ReplaceInPlace` | src/paneTree.ts:404-414 | replacing a node puts the new rectangles where the old ones were, in the same box, and leaves all others alone |
| `PaneInPlace.SplitInPlace` | src/paneTree.ts:161-222 | a split joins the one split around its target that runs that way, where all then share evenly, or, exactly when there is none, halves the target's own rectangle and moves no other pane |
| `PaneInPlace.JoinInPlace` | src/paneTree.ts:164-171 | a join moves no pane outside the split it joins |
| `PaneInPlace.RemoveInPlace` | src/paneTree.ts:226-250 | a close moves no pane outside the split around it, and the others there keep their proportions |
| `PaneRuns.RemoveUndoesSplit` | src/paneTree.ts:161-250 | closing the pane just opened restores the tree, up to even shares in a split it joined |
| `PaneRuns.SameWaySplitsAreEven` | src/paneTree.ts:164-171 | k same-direction splits of one terminal, whatever their targets, give one split of k + 1 equal shares |
| `PaneDirections.SplitAlternates` | src/paneTree.ts:161-222 | a split never puts a row into a row or a column into a column |
| `PaneDirections.RemoveAlternatesIff` | src/paneTree.ts:226-250 | a close keeps directions alternating exactly when it does not collapse a nested pair whose other half is a split |
| `PaneDirections.RemoveCanNestRows` | src/paneTree.ts:226-250 | a four-pane tree in which closing one pane nests a row in a row |
| `PaneTakeover.PaneTakingOver` | src/paneTree.ts:353-376 | the answer is the first pane in reading order whose box has the largest area in common with the vacated one, and closing a pane of two or more always has an answer |
| `PaneTakeover.BestHeir` | src/paneTree.ts:360-375 | the loop finds the first pane of the largest overlapping area, and none only when none overlaps enough |
| `PaneTakeover.ClosingHasAnHeir` | src/paneTree.ts:226-250 | after a close some pane covers part of the vacated rectangle |
| `PaneNeighbor.ExactIsWideEnough` | src/paneTree.ts:60-65 | with no tolerance every pane is wide enough for the searches |
| `PaneResize.MovedShares` | src/paneTree.ts:446-455 | the ratios a moved divider stores conserve the pair's share and all others; they are a distribution exactly when the pair has more than 0.1, and both sides are stored with 0.1 or more exactly when it has 0.2; the first gets what was wanted, or as near to it as leaves both 0.1 |
| `PaneResize.SmallPairFallsBack` | src/paneTree.ts:477-486 | the other panes keep their space exactly when the pair has more than 0.1 or they were even already |
| `PaneResize.SmallPairMovesOthers` | src/paneTree.ts:477-486 | with 5, 5 and 90 percent any drag of the first divider gives the third pane a third |
| `PaneResize.GrowNeverShrinksIff` | src/paneTree.ts:446-455 | for a step that is not negative the child is laid out with no less than before exactly when the other side had at least 0.1, or, for a pair of at most 0.1, when the child had no more than an even share |
| `PaneResize.ReplaceMovesPair` | src/paneTree.ts:404-414 | replacing one node by itself with two adjacent shares traded moves no rectangle outside those two children |
| `PaneResize.PairMoves` | src/paneTree.ts:261-282 | trading shares between adjacent children moves no other child |
| `PaneResize.ReplaceKeepsShape` | src/paneTree.ts:404-414 | other ratios for one split change neither the panes, nor any id, nor the number of children anywhere |
| `PaneSeams.PathToIsPath` | src/paneTree.ts:391-401 | a path is found exactly for the leaves and it leads to the leaf |
| `PaneSeams.BoxAtIsRect` | src/paneTree.ts:391-401 | following the path from the window gives the pane's own rectangle |
| `PaneSeams.PathEdge` | src/paneTree.ts:429-458 | the edge of a pane lies on the deepest divider its path meets that way, or on the outer box |
| `PaneSeams.SeamUnlessAtWindowEdge` | src/paneTree.ts:429-458 | a pane has a divider to move toward a side exactly when that side is not the window's edge, exactly when it has a neighbour there |
| `PaneSeams.ResizeToward` | src/paneTree.ts:440-457 | the walk up the path moves the deepest divider of that axis with a child on that side, or none |
| `PaneSeams.ResizePane` | src/paneTree.ts:429-458 | the resize is that move at the focused pane's path, and nothing for an unknown pane |
| `PaneSeams.RedistributingIsLocal` | src/paneTree.ts:446-486 | a pair with more than 0.1 keeps its share, both sides stay positive, at least 0.1 when it has 0.2, and no rectangle outside it moves |
| `PaneSeams.ResizeIsLocal` | src/paneTree.ts:429-458 | a resize key moves only the two subtrees at the seam |
| `PaneSeams.DragIsLocal` | src/paneTree.ts:466-487 | a drag moves only the two subtrees at the divider |
| `PaneSeams.DragLands` | src/paneTree.ts:466-487 | in the tree a drag gives, the divider of the split found under the id stands at the position it was dropped at, or as near as leaves both sides 0.1; a pair of less than 0.2 has it 0.1 before its end |
| `PaneEdges.KeyMovesTheEdge` | src/paneTree.ts:429-458 | in screen coordinates, for each of the four directions: a resize key does nothing to a pane that reaches the window's edge there; any other has that edge moved outward by what its child of the split gains, times the extent of the split |
| `PaneEdges.EdgeMoves` | src/paneTree.ts:429-458 | shares traded at the deepest divider on a pane's path move the pane's edge there by the trade, scaled to the split |
| `PaneGrow.GrowKeepsLengthIff` | src/paneTree.ts:429-458 | on screen the grow key makes its own pane no shorter exactly when the move is within the tolerance, the other side of the pair has 0.1, or, for a pair of at most 0.1, the child at the seam has no more than an even share |
| `PaneGrow.GrowShrinksEvenRowIff` | src/paneTree.ts:429-458 | in an even row of n panes the grow key makes the pane it is pressed in shorter exactly when n is 11 to 19 |
| `PaneGrow.LongerAsStepIs` | src/paneTree.ts:261-282 | other ratios for one split on a pane's path change the pane's extent as they change the laid-out share of the child on the path |
| `PaneGrow.PathLenIsLen` | src/paneTree.ts:261-282 | a pane's extent along an axis is the window's times the share kept at each split of that axis on its path |
| `PaneSessions.AnyRunKeepsShape` | src/paneTree.ts:161-487 | over any run of opens, closes, resize keys and drags with fresh ids no id is used twice and no split falls below two children; all ratios stay distributions, all through the run, exactly when no edit moves a pair of at most 0.1 |
| `PaneSessions.ApplyKeepsProperIff` | src/paneTree.ts:161-487 | an edit keeps a proper tree proper exactly when it moves no pair of at most 0.1 |
| `PaneSessions.MovingABoundary` | src/paneTree.ts:429-487 | moving a boundary keeps the panes, their order and every id |
| `PaneStorage.ReadPaneTree` | src/paneTree.ts:500-537 | any JSON value gives nothing or a tree with distinct non-empty ids, no split below two children and ratios that are distributions |
| `PaneStorage.Read` | src/paneTree.ts:502-535 | the recursive reader and the set it grows compute the reading the theorems are about |
| `PaneStorage.ReadingIsWellFormed` | src/paneTree.ts:500-537 | what is read is proper and names only ids new to the set of seen ones |
| `PaneStorage.SnapshotKeeps` | src/paneTree.ts:544-553 | a snapshot has the tree's ids, leaves and properness |
| `PaneStorage.ReadBack` | src/paneTree.ts:500-553 | a proper stored tree is read back as itself in any context that has not seen its ids |
| `PaneStorage.RoundTripIff` | src/paneTree.ts:500-553 | a snapshot is read back as that snapshot exactly when the tree is proper, its ids are distinct and not empty and no directory is the empty string |
| `PaneReading.ReadsIff` | src/paneTree.ts:500-537 | a value is read exactly when all the way down it is a named leaf or a named split of at least one such value and no name occurs twice; the tree has its names, directions, directories and scaled shares, a split of one being its child |
| `PaneReading.WrittenIsRestored` | src/paneTree.ts:500-553 | what is written of a proper tree is read back with its shape, shares and directories and without its live sessions |
| `TerminalTemplates.RatiosFor` | src/terminalTemplates.ts:37-48 | the ratios of a template become a distribution over its children whatever was declared |
| `TerminalTemplates.Instantiator.Build` | src/terminalTemplates.ts:97-116 | the closure with its flag and id source builds the tree the theorems are about |
| `TerminalTemplates.InstantiateTemplate` | src/terminalTemplates.ts:91-118 | instantiating starts with the first leaf still to come |
| `TerminalTemplates.BuiltIsFresh` | src/terminalTemplates.ts:91-118 | every id of the built tree is the tab's, once, or one freshly made, each once |
| `TerminalTemplates.BuiltMirrors` | src/terminalTemplates.ts:91-118 | the built tree has the template's directions, its shares scaled or even, and in every leaf its profile, directory and command |
| `TerminalTemplates.SharesSurvive` | src/terminalTemplates.ts:134-139 | writing shares as ten-thousandths and reading them back moves each of n by at most (n + 1) / (10000 - n) |
| `TerminalTemplates.StoredIsNear` | src/terminalTemplates.ts:137 | a share is written as the nearest whole number of ten-thousandths, a half rounded up, and at least one |
| `TerminalTemplates.CaptureThenInstantiate` | src/terminalTemplates.ts:91-142 | capture and instantiate keep shape, direction, leaf count, order and contents, give the first leaf the tab id and use no id twice, whatever the ratios; a split whose ratios are a distribution keeps its shares within that bound |
| `TerminalTemplates.ASqueezedPaneIsLost` | src/terminalTemplates.ts:134-139 | a pane shown with a third after a drag of a 5 and 5 percent pair is captured with less than a ten-thousandth |
| `TemplateEdit.TemplateLeaves` | src/terminalTemplates.ts:51-62 | every leaf in reading order with its path |
| `TemplateEdit.UpdateChangesOneLeaf` | src/terminalTemplates.ts:65-83 | an update patches the leaf at its path and leaves every other leaf and every place alone; a path to no leaf changes nothing |
| `TemplateEdit.UpdateKeepsLayout` | src/terminalTemplates.ts:64-83 | an update leaves every split, direction and share as it was |
| `TemplateEdit.ListedIffThere` | src/terminalTemplates.ts:51-62 | a leaf is listed under a path exactly when following the path leads to it |
| `TemplateEdit.PathsDiffer` | src/terminalTemplates.ts:51-62 | a path names one leaf |
| `Persist.PersistIsARegister` | src/persist.ts:102-262 | without failures, in every interleaving, writes and removes take effect in call order, a load answers a value held between its call and its return, and a drained scope stores the last accepted save or delete |
| `Persist.StepsKeepCourse` | src/persist.ts:118-151 | each step keeps the scope heading for the last accepted value exactly unless it is a failure that is not safe |
| `Persist.DrainedHoldsLastValue` | src/persist.ts:118-220 | with safe failures only, a drained scope stores the last accepted save or delete |
| `Persist.DrainingStoresHeading` | src/persist.ts:118-151 | a scope left to timers, flushes and the backend until it drains stores what it was heading for |
| `Persist.UnsafeFailureEndsWrong` | src/persist.ts:145-150 | after a failed operation a scope left alone until it drains stores the last accepted value exactly when the failure was safe |
| `Persist.FailedSaveComesBack` | src/persist.ts:145-150 | a save that fails after a delete is written back by a later flush |
| `Persist.StepKeepsOrder` | src/persist.ts:118-122 | operations land in the order they were enqueued and the register's history is theirs |
| `Persist.StepKeepsLoads` | src/persist.ts:190-220 | no step makes a load untrue that is under way or answered |
| `Persist.DamagedValueSurvives` | src/persist.ts:157-220 | a stored value that does not parse, in a scope that is write-blocked and drained and has no load on its way back with anything else, is never replaced while the scope is not deleted |
| `Persist.BlockLastsIff` | src/persist.ts:157-262 | a blocked scope refuses every save of a run exactly when no load in it comes back with nothing or with text that parses and no removal settles |
| `Persist.BlockedAfterIff` | src/persist.ts:128-262 | after any step a scope is blocked exactly when the step was a load that came back with text that does not parse or was refused, or a mark, or when it was blocked and the step was no load of nothing or of text that parses and no settled removal; blocked it takes no save, open it buffers the text and arms the timer |
| `Persist.BlockIsLastingIff` | src/persist.ts:129-220 | a blocked scope with nothing under way refuses saves in every run that does not delete it exactly when it stores text that does not parse |
| `Persist.LoadingAgainLifts` | src/persist.ts:129-220 | a scope marked invalid over text that parses is open again after one more load |
| `PersistHistory.BlockedIff` | src/persist.ts:128-262 | at every point of a run saves are refused exactly when some event has blocked the scope and none since has lifted the block |
| `PersistHistory.DamagedFromTheStart` | src/persist.ts:190-220 | a stored value that does not parse is protected from the first load that comes back on, in every run that does not delete it |
| `PersistHistory.DrainedStoresTheValue` | src/persist.ts:118-220 | with safe failures only, a drained scope stores what the last delete or accepted save made its value |
| `PersistHistory.LoadsAnswerTheValue` | src/persist.ts:190-220 | without failures a load answers the scope's value at some point between its call and its answer |
| `PersistHistory.RecordIsValue` | src/persist.ts:157-262 | the value the register theorems speak of is that of the last delete or accepted save |
| `PersistHistory.BufferedIsTimed` | src/persist.ts:136-181 | without failures a timer is armed exactly while something is buffered |
| `PersistStore.Store.SaveState` | src/persist.ts:157-181 | a valid scope whose data serialises to a text takes the save step, an invalid scope or data that throws changes nothing; no other scope is touched |
| `PersistStore.Store.FlushScope` | src/persist.ts:136-151 | the flush step of one scope, no other touched |
| `PersistStore.Store.DeleteState` | src/persist.ts:250-262 | the delete step of one scope, no other touched |
| `PersistStore.Store.LoadStarts` | src/persist.ts:190-198 | an invalid scope fails, a buffered text answers at once with its value, or as invalid JSON with the scope blocked, otherwise the load waits for what was enqueued |
| `PersistStore.Store.LoadFinishes` | src/persist.ts:198-220 | with nothing between the read and its return: nothing stored is missing and text that parses is the value, both with the block lifted; text that does not parse is invalid JSON and an unreadable store fails, both with the scope blocked |
| `PersistStore.Store.FlushAll` | src/persist.ts:286-289 | the loop flushes every scope with something buffered and touches no other, and without failures the caller is left waiting for every operation then enqueued in any scope |
| `PersistStore.Store.MarkStateInvalid` | src/persist.ts:129-133 | a valid scope is blocked for writing |
| `PersistStore.Store.HeadFails` | src/persist.ts:145-150 | a failed save goes back into the buffer unless a newer one is there |
| `GateHistory.NothingIsAllowedUnasked` | src-tauri/src/agent_bridge.rs:229-281 | in every interleaving, call ids reused or not, a request returns Allow only if an Allow answer was given under the id its own entry then stood under, and nothing else ever took its sender |
| `GateHistory.RequestReturnsIff` | src-tauri/src/agent_bridge.rs:229-281 | a request that received returns exactly the decision of the answer or release that took its sender, and one that cleaned up after a time-out returns a refusal |
| `GateHistory.AnswerIsReturnedIff` | src-tauri/src/agent_bridge.rs:248-281 | every run from a send returns the decision of the answer that took the sender exactly when the request was still parked at the send |
| `GateHistory.TableHoldsIff` | src-tauri/src/agent_bridge.rs:248-281 | the table holds a request's sender under an id exactly when it parked there and no later park, answer, release or clean-up took the entry |
| `GateHistory.TakenOnce` | src-tauri/src/agent_bridge.rs:248-264 | a sender is taken once |
| `GateHistory.ToldIff` | src-tauri/src/agent_bridge.rs:250-256 | an answerer is told that it counted exactly when it sent while the request was there to hear |
| `GateHistory.ToldIsObeyed` | src-tauri/src/agent_bridge.rs:250-281 | an answerer told so was obeyed unless the request had given up |
| `AgentGate.StepKeepsSound` | src-tauri/src/agent_bridge.rs:229-281 | each step of request, answer, timeout and release keeps the table, the senders and the answers consistent |
| `AgentGate.ParkedCanBeAnswered` | src-tauri/src/agent_bridge.rs:184-281 | as long as no request parks under an id another one may still clean up, a parked request can always be answered or is about to be woken, and a stop leaves none waiting |
| `AgentGate.ParkIsSafeIff` | src-tauri/src/agent_bridge.rs:268-280 | a park strands no request in any continuation exactly when no request in flight without its decision at hand holds the id |
| `AgentGate.ReusedIdLosesBoth` | src-tauri/src/agent_bridge.rs:268-280 | two requests under one id end with one parked that nobody can answer |
| `AgentGate.LateAnswerIsRefused` | src-tauri/src/agent_bridge.rs:250-280 | an answerer can be told it counted while the request is refused |
| `AgentGate.AnswerCountsIff` | src-tauri/src/agent_bridge.rs:250-280 | every run from a send returns the request with the decision sent exactly when the request was still parked at the send |
| `GateProcess.UiGate.Answer` | src-tauri/src/agent_bridge.rs:248-256 | the entry under the id goes; the answer is true exactly when a sender waited there and its request is still listening, which then has the decision given; it is the take and the send of the state machine |
| `GateProcess.UiGate.ReleaseAll` | src-tauri/src/agent_bridge.rs:258-264 | the table is emptied and every sender in it carries a refusal |
| `GateProcess.UiGate.CleanUp` | src-tauri/src/agent_bridge.rs:275-278 | a request that timed out removes the entry under its id and returns a refusal |
| `AgentReattach.ReattachLosesNothing` | src-tauri/src/agent_bridge.rs:474-493 | in every interleaving of emits and attaches a settled consumer has every event it was replayed, the current one every logged event, and one twice exactly when it was both replayed and sent live |
| `AgentReattach.RunKeepsAccount` | src-tauri/src/agent_bridge.rs:442-446 | over every run deliveries made or owed match replays and live sendings one for one |
| `ReattachOrder.DeliveriesAreInOrder` | src-tauri/src/agent_bridge.rs:442-493 | in every interleaving a settled consumer has had the log it was replayed, front to back, merged with what was sent to it live in the order it was logged |
| `AgentReattach.CanDeliverTwice` | src-tauri/src/agent_bridge.rs:474-493 | a run in which the new consumer gets an event twice |
| `AgentReattach.AttachCanComeTwiceIff` | src-tauri/src/agent_bridge.rs:442-493 | after any run, an attach can still bring some event twice exactly when one was logged but not yet aimed as it took the target, or one was logged before it read the log |
| `SessionProcess.LiveSession.Emit` | src-tauri/src/agent_bridge.rs:84-122 | an undisturbed emit delivers the event only if the log took it, and the first failure once in its place |
| `SessionProcess.LiveSession.EmitUnlogged` | src-tauri/src/agent_bridge.rs:99-121 | an event of a session without a log goes straight to the consumer |
| `SessionProcess.LiveSession.Attach` | src-tauri/src/agent_bridge.rs:474-493 | an undisturbed attach hands over the log whole and in order; if it cannot be read the target has moved all the same |
| `AgentSupervisor.OnlyTheClaimantCommands` | src-tauri/src/agent_supervisor.rs:254-383 | in every run one live session per id, one owner per handle, commands accepted exactly from the client whose claim stands, and a superseded client's disconnect changes nothing |
| `SupervisorHistory.CommandsIff` | src-tauri/src/agent_supervisor.rs:254-383 | after any run commands on a handle are accepted exactly from a client that started its session with no start by anybody, recorded close or detach of its own or loss of its connection since |
| `SupervisorHistory.ClaimStandsIff` | src-tauri/src/agent_supervisor.rs:254-383 | a claim stands exactly when its client started the session and no later frame has ended that |
| `SupervisorHistory.StartsAreCounted` | src-tauri/src/agent_supervisor.rs:263-288 | the starts the generations are compared with are the start frames that found or began a session |
| `SupervisorHistory.StartAnswers` | src-tauri/src/agent_supervisor.rs:263-288 | a start is acknowledged exactly when it found or began the session and the store took its record, working and with fewer than 2^63 - 1 starts on record, with a handle of that session which the client then owns, recorded as attached with one start more |
| `SupervisorHistory.ReleaseAnswers` | src-tauri/src/agent_supervisor.rs:314-334 | a close or detach is acknowledged exactly to the owner whose record is stored; the handle is then unowned, a closed session gone and recorded as stopped, a detached one kept and recorded so, both at their generation |
| `SupervisorHistory.GoneAnswers` | src-tauri/src/agent_supervisor.rs:372-383 | a lost client owns nothing any more, what it owned stays running and is recorded as detached where the store takes it, and no other owner changes |
| `AgentSupervisor.DisconnectSparesTheLost` | src-tauri/src/agent_supervisor.rs:372-383 | a client that lost one session and holds another leaves the lost one's owner and record alone when its connection ends |
| `AgentSupervisor.StoreIsTrueThroughout` | src-tauri/src/agent_supervisor.rs:263-383 | all through a run a session is stored as attached exactly while a claim stands and its generation counts its starts, if and only if none was attached at first and no start or lost connection is refused a put |
| `AgentSupervisor.StepKeepsStoreIff` | src-tauri/src/agent_supervisor.rs:254-383 | one frame keeps the store true exactly when the puts it does not ask about first succeed |
| `AgentSupervisor.StoreFollowsOwnership` | src-tauri/src/agent_supervisor.rs:254-383 | stored as attached exactly while an owner exists, generation equal to the base plus the starts |
| `AgentSupervisor.StepKeepsFenced` | src-tauri/src/agent_supervisor.rs:254-383 | every frame, whatever fails, keeps the owner table saying what the claims say |
| `AgentSupervisor.RefusedPutSplitsStoreAndOwner` | src-tauri/src/agent_supervisor.rs:278-287 | a start whose put is refused leaves an owner without an attached record |
| `SupervisorLocks.OwnershipSurvivesIff` | src-tauri/src/agent_supervisor.rs:254-383 | in every interleaving of the locks owners and claims agree throughout exactly when no session is begun beside a live one of its id, none is entered that is gone, and no removal finds another owner |
| `SupervisorLocks.MoveKeepsFencedIff` | src-tauri/src/agent_supervisor.rs:254-383 | one move keeps owners and claims in agreement exactly when nothing between its locks got in its way |
| `SupervisorLocks.BeginIsSafeIff` | src-tauri/src/agent_supervisor.rs:266-277 | beginning after a miss keeps one session per id exactly when none of that id is live by then |
| `SupervisorLocks.EnterIsSafeIff` | src-tauri/src/agent_supervisor.rs:278-282 | entering the owner table keeps owners and claims in agreement exactly when the session found is still there |
| `SupervisorLocks.RemoveIsSafeIff` | src-tauri/src/agent_supervisor.rs:372-383 | removing a handle after a passed check keeps them in agreement exactly when it is unowned or still the same client's |
| `SupervisorRecords.RecordsFollowIff` | src-tauri/src/agent_supervisor.rs:254-383 | in every interleaving of the locks, the get and the put of a record apart, the records follow the claims and count the starts throughout exactly when none was attached at first and every move keeps them, as told from what stands before it |
| `SupervisorRecords.RecordKeptIff` | src-tauri/src/agent_supervisor.rs:348-370 | one move keeps a session's record in keeping with its claim exactly when what it writes, or leaves unwritten, fits the claims standing and the writes owed just then |
| `SupervisorRecords.CountKeptIff` | src-tauri/src/agent_supervisor.rs:354-360 | one move keeps the generation equal to the base plus the starts recorded exactly when a put still finds the generation it read, and a write of a start is not given up |
| `SupervisorRecords.RecordsAtRest` | src-tauri/src/agent_supervisor.rs:348-370 | after such a run, with no frame under way, a session is stored as attached exactly while a claim on it stands and its generation counts its starts |
| `SupervisorRaces.StartAlone` | src-tauri/src/agent_supervisor.rs:263-288 | the lock steps of a start that finds its session or begins it, with nothing in between, are the whole start frame |
| `SupervisorRaces.GiveUpAlone` | src-tauri/src/agent_supervisor.rs:314-334 | the lock steps of a detach or a close with nothing in between are the whole frame |
| `SupervisorRaces.GiveUpOfTheGone` | src-tauri/src/agent_supervisor.rs:314-334 | the same for an owned handle whose session is gone, without a record |
| `SupervisorRaces.LoseAlone` | src-tauri/src/agent_supervisor.rs:372-383 | the lock steps that give up a lost handle, with nothing in between, leave it unowned and its session running and recorded as detached where the store takes it |
| `SupervisorRaces.FindsOrMisses` | src-tauri/src/agent_supervisor.rs:266-277 | a start finds the live session of its id, or none exactly when there is none |
| `SupervisorRaces.ALateRecordHidesTheOwner` | src-tauri/src/agent_supervisor.rs:372-383 | a lost connection lets go of a session, another client takes it over, and the record of the loss is written last: owners and claims agree, and the session stays recorded as detached under its new owner |
| `SupervisorRaces.TwoReadersLoseAStart` | src-tauri/src/agent_supervisor.rs:348-370 | two joining starts read the same generation and write the same next one, so three starts count as two |
| `SupervisorRaces.GivingUpCanRobTheNewOwner` | src-tauri/src/agent_supervisor.rs:314-334 | a detach, a close or a lost connection with a start of another client in between: the new owner's claim stands, its commands are refused, its session is recorded as detached or stopped, and after a close is gone |
| `SupervisorRaces.TwoStartsCanBothBegin` | src-tauri/src/agent_supervisor.rs:266-277 | two clients that both find no session end with two live ones under one id, each with an owner |
| `SupervisorRaces.AStartCanEnterADeadSession` | src-tauri/src/agent_supervisor.rs:266-282 | a start that found a session its owner then closes becomes the owner of a handle without one |
| `SupervisorProcess.Supervisor.OnStart` | src-tauri/src/agent_supervisor.rs:263-288 | a start frame takes the start step with its reply, whether it attaches or starts |
| `SupervisorProcess.Supervisor.OnClose` | src-tauri/src/agent_supervisor.rs:314-324 | a close frame ends the session, or changes nothing when refused |
| `SupervisorProcess.Supervisor.OnDetach` | src-tauri/src/agent_supervisor.rs:325-334 | a detach frame leaves the session running without an owner, or changes nothing when refused |
| `SupervisorProcess.Supervisor.OnGone` | src-tauri/src/agent_supervisor.rs:372-383 | the loop over what a lost client owned gives up what is still its own and nothing else |
| `SupervisorProcess.Supervisor.EnsureOwner` | src-tauri/src/agent_supervisor.rs:340-346 | after any run of frames true exactly for the client whose claim on the handle's session stands |
| `SupervisorProcess.Supervisor.SetState` | src-tauri/src/agent_supervisor.rs:348-370 | the record's generation starts at 1, advances saturating on demand, and the put may be refused |
| `Shortcuts.TakeModifiers` | src/shortcuts.ts:92-102 | the loop takes exactly the leading modifier glyphs |
| `ChordNotation.ModifiersRead` | src/shortcuts.ts:62-102 | every text is read as its leading glyphs, each raising its own flag, and a rest that starts with none |
| `ChordNotation.ChordReads` | src/shortcuts.ts:84-90 | a text has a single chord exactly when it has no range, no separator and a key behind its glyphs, and it is that key, lower-cased, under those flags |
| `ChordNotation.WrittenRangeReadsBack` | src/shortcuts.ts:111-119 | a written range reads back with its modifiers and its two ends in their places exactly when the first end is neither a modifier nor the range glyph |
| `ChordNotation.RangeOccupies` | src/shortcuts.ts:364-381 | a written range occupies every key between its ends under its modifiers, in order |
| `ChordNotation.CompoundOccupies` | src/shortcuts.ts:364-381 | two entries written as one occupy the chords of the first and then those of the second |
| `Shortcuts.WrittenChordReadsBack` | src/shortcuts.ts:84-90 | a chord written for the table is read back as itself exactly when its key is a lower-case name that is no modifier, range or compound |
| `Shortcuts.ChordIdIsUnique` | src/shortcuts.ts:125-130 | two chords with proper keys have the same id exactly when they are the same |
| `Shortcuts.OccupiedChords` | src/shortcuts.ts:364-381 | the loop over the parts yields the chords of each part in order |
| `Shortcuts.PartsJoinBack` | src/shortcuts.ts:366 | cutting an entry at its separators loses nothing |
| `Shortcuts.PartsAreSingle` | src/shortcuts.ts:366 | no part is left with a separator in it |
| `Shortcuts.RangeKeysAreBetween` | src-tauri/src/keys.rs:325-333 | a range answers every key between its ends, in order, once |
| `Shortcuts.SingleOccupies` | src/shortcuts.ts:364-381 | a single-chord entry occupies its own chord and nothing else |
| `Keys.UnknownCommandsChangeNothing` | src-tauri/src/keys.rs:79-97 | whatever an overlay says of commands the table does not have changes nothing |
| `Keys.UnboundHoldsNothing` | src-tauri/src/keys.rs:79-97 | a command bound to the empty string claims no chord |
| `Keys.ResolveBindings` | src/shortcuts.ts:334-357 | each chord is held by its first claimant and its claims list every claimant in table order |
| `Keys.BuildHandlerIndex` | src/keys.ts:42-70 | the two passes give each chord the first row that writes it, or else the first row it is an alias of |
| `Keys.PhysicalAliases` | src/keys.ts:74-83 | the nested loops yield both names of the plus key under both shift states |
| `Keys.AliasIff` | src/keys.ts:74-83 | a chord is an alias of another exactly when both are on the plus key, = or +, with the same modifiers, shift aside |
| `Keys.FindIsNotIndexed` | src/keys.ts:42-57 | the handler index never answers with find |
| `Keys.PageTables` | src-tauri/src/keys.rs:132-163 | the page tables hold the last row that writes a chord, or else the first row on the plus key |
| `Keys.PageAgreesWithIndex` | src-tauri/src/keys.rs:132-163 | on every command chord claimed at most once the page and the handler index name the same command exactly unless a row of find's writes it, or none does and the first row on the plus key is find's |
| `Keys.ConflictSplitsThem` | src/keys.ts:42-83 | with find elsewhere, in every table, page and index agree on a chord exactly when the first and the last row writing it name the same command |
| `Keys.OneTableOneAnswer` | src/keys.ts:42-83 | without conflicts and with find elsewhere page and index agree on every command chord, aliases included |
| `Keys.IndexFollowsHolder` | src/keys.ts:49-57 | in every table the index runs the holder of a chord wherever that is a single-chord handler row |
| `Keys.InspectBinding` | src/shortcuts.ts:487-524 | the rows listed as taken are exactly the other rows that answer one of the entry's chords, each with exactly the chords they share, and so the reserved keys; an entry is blocked exactly when it is unreadable or another row answers one of its chords, and free exactly when it is not blocked and none of them is reserved on the platform |
| `Keys.ReservedAt` | src/shortcuts.ts:463-474 | the loop lists the reserved keys of the platform that hold a wanted chord |
| `Keys.SavingKeepsTheTable` | src/shortcuts.ts:487-524 | saving a recorded key into a table without conflicts keeps it so exactly when nothing else is taken and the key names no chord twice |
| `Keys.ACompoundCanClashWithItself` | src/shortcuts.ts:487-524 | a compound of one chord with itself names that chord twice, which the verdict does not ask |
| `Utf8Carry.PostStream` | src-tauri/src/agent_http.rs:71-102 | for every body, cut and reader: the chunks are those the pieces taken complete, the carry is the unread rest, the reader wanted more after every chunk but the last, and each ending has its cause |
| `Utf8Carry.WellFormedBodyArrives` | src-tauri/src/agent_http.rs:71-102 | a well-formed body arrives byte for byte however it is cut, with at most 3 bytes carried after any piece |
| `Utf8Carry.ChunksSpellTheBody` | src-tauri/src/agent_http.rs:71-102 | for any body the chunks concatenate to the text of its longest well-formed prefix and none is empty |
| `Utf8Carry.MalformedSilencesTheRest` | src-tauri/src/agent_http.rs:83-92 | once four bytes are carried no later piece is ever read |
| `Utf8Carry.SilencedIff` | src-tauri/src/agent_http.rs:83-92 | nothing more is ever read exactly when the carry is not a character cut short: a lead byte C2 to F4 and fewer tail bytes than it asks for, the first of them in the lead's range |
| `Utf8Carry.ReadingGoesOn` | src-tauri/src/agent_http.rs:78-92 | reading the carry with the next piece goes on exactly where reading the whole body stopped |
| `Utf8Carry.NoLongerPrefix` | src-tauri/src/agent_http.rs:87 | no longer prefix of the bytes is well formed |
| `Utf8Carry.DecodeUndoesEncode` | src-tauri/src/agent_http.rs:79-92 | every text's encoding is well formed and decodes to that text |
| `Utf8Carry.EncodeUndoesDecode` | src-tauri/src/agent_http.rs:79-92 | encoding what was decoded gives the well-formed prefix back |
| `SidebarHover.AnyRunIsOrderly` | src/sidebarHover.ts:15-72 | in every run of pointer, timer, lock and host events at most one timer is armed, closing is set exactly while the exit timer is, and closing or hidden is never presented while wanted, held or pinned |
| `SidebarHover.StepKeepsValid` | src/sidebarHover.ts:15-72 | each event keeps that and the timers' deadlines in bounds |
| `SidebarModes.StepIsModeStep` | src/sidebarHover.ts:15-95 | in every reachable state each event does to the three timers, flags and locks what it does to one of four modes: at rest, opening after 100 ms, leaving after 280 ms, going for 200 ms or none with reduced motion |
| `SidebarModes.RunIsModeRun` | src/sidebarHover.ts:15-95 | and so over every run |
| `SidebarModes.HiddenOnlyWhenDue` | src/sidebarHover.ts:37-42 | apart from the host only a due exit hides a shown panel, and only one that nobody wants, keeps or has pinned |
| `SidebarHover.LeaveHides` | src/sidebarHover.ts:29-44 | an undisturbed leave from a shown, unheld, unpinned panel hides it within 480 ms, 280 ms with reduced motion, and leaves no timer |
| `SidebarHover.LeaveHidesNoSooner` | src/sidebarHover.ts:29-44 | from rest it stays shown until the last millisecond |
| `SidebarHover.HeldPanelStays` | src/sidebarHover.ts:24-44 | a held panel outlasts every armed timer |
| `SidebarHover.DwellOpens` | src/sidebarHover.ts:53-59 | crossing the edge opens a hidden panel exactly after 100 ms |
| `SidebarHover.FastCrossingOpensNothing` | src/sidebarHover.ts:53-64 | leaving the edge sooner leaves it hidden for good |
| `SidebarHover.PinWithoutResetIff` | src/sidebarHover.ts:37-42 | for a host that let the pin change without the reset, the panel would be hidden under it exactly when an unheld exit comes due |
| `SidebarHover.AnExitIsReached` | src/sidebarHover.ts:29-44 | an ordinary run comes to an unheld exit that is due |
| `SidebarArbiter.Arbiter.Leave` | src/sidebarHover.ts:29-44 | the leave of the closure takes the step, arming the close timer or not |
| `SidebarArbiter.Arbiter.CloseFires` | src/sidebarHover.ts:32-43 | the close callback takes the step that presents closing and arms the exit |
| `SidebarArbiter.Arbiter.ExitFires` | src/sidebarHover.ts:37-42 | the exit callback takes the step that hides, or shows again |
| `SidebarArbiter.Arbiter.EdgeEnter` | src/sidebarHover.ts:53-59 | the edge crossing takes the step that shows, or arms the open timer |
| `SidebarArbiter.Arbiter.Reconcile` | src/sidebarHover.ts:45-51 | the reconcile takes the step that settles, shows again or leaves |
| `SidebarArbiter.Arbiter.PinTo` | src/sidebarHover.ts:94-95 | any change of the pin setting, from or to unknown included, resets every timer, lock and flag, and keeps the timers in order |

## Left out

- Floating-point arithmetic: shares, rectangles and ten-thousandths are exact reals, so neither the drift a double adds is covered nor the overflow of a sum, by which two finite but huge ratios would pass `normalize` and become 0.
- `splitRects` rectangles and the divider hit areas; a drag is given its split and divider.
- Whether an operation returns the same object or an equal copy when nothing changes.
- `updateLeaf`, `paneCwd`, `firstLeaf` and the live-session fields of a leaf beyond what splitting, storing and capturing do with them.
- PersistStore.Store.SaveState: a value for which `JSON.stringify` yields no text and does not throw is not modelled.
- Persist: a backend operation that both fails and takes effect is not modelled, nor are `listScopes`, `loadStateSync` and `deleteStateNow`.
- AgentSupervisor.OnlyTheClaimantCommands: a frame is one step there; `SupervisorLocks` takes the locks apart, where a close leaves registry and owner table in one step, and a check that fails is no step.
- AgentSupervisor: an attach that fails after it moved the event target is a refused start; which consumer then receives the events is modelled in `AgentReattach` only.
- The cancellation token, the prompt queue and the thread of an agent session, and sharing to remote viewers, which exists in test builds only.
- `AgentGate` and `AgentReattach` prove their theorems on values, one event per atomic step; the classes beside them carry out the same steps in place, one call at a time.
- The status code, headers and time-outs of the HTTP exchange, the web socket and the token store.
- Shortcuts: key names are lower-cased as ASCII only; full Unicode case mapping and lone surrogates, on which the two languages differ, are not modelled.
- Keys: the JSON text of the page tables, menu accelerators, the tab-cycle and tab-jump rows' own readers, labels, and the lists of unknown commands and conflicts beyond the claims they are read from.
- TemplateEdit.UpdateChangesOneLeaf: path elements are integers; a fractional index is not modelled.
- SidebarHover: an armed timer may fire late in the run theorems and fires on time in the timing ones; the store's page-freeze bookkeeping is not modelled.
- React components, the Tauri commands, the webview and page scripts, credentials, cookies, history scoring and configuration documents.
