# jmux: verified models of its protocols and data structures

jmux is a terminal multiplexer that drives coding agents. This project models four of its cores and
proves what they promise.

**The goal graph** (`Dag`, `Proposal`, `Graph`, `GraphRegistry`, `GraphSafety`, `GraphProgress`,
`GraphCompletion`, `GraphOutcomes`, `GraphLimits`). A plan is a set of nodes with dependencies. `Proposal`
checks a plan as the program does, ending in the worklist that rejects cycles. `Graph` states each of the ten steps
(plan found, approval, revision, scheduler tick, pause, stop, resume, accept, continue, restart) as a
function on a `World`; `GraphRegistry.GraphSpec` performs the steps in place, with the source's passes
and loops, and each method is proved equal to the function. A tick runs wholly under the registry lock,
so one step is atomic. Goal runs, git and launches are the environment: each step takes arbitrary
answers. `base` records which nodes' branches the base checkout has merged; `launches` logs each launch
with its report references and the base it started from. On top of these come safety over every run,
the meaning of a stall, completion when nothing fails, and the places where the guarantees end.
`GraphOutcomes` states what each step makes of each node field by field, and who may turn a node done.

**The goal-run driver** (`GoalDriver`, `GoalOutcomes`). One run's state machine: reports, escalation with
its rate limit, the idle debounce, nudges, iterations and the wall clock, over any sequence of ticks, human
verdicts and the agent's own completion calls, with settings that may change between ticks.

**Workspaces and tabs** (`Layout`, `LayoutOutcomes`, `Neighbors`, `Workspaces`, `WorkspaceOutcomes`, `Monitors`,
`TabLists`, `Tabs`). The split tree, the workspace that keeps it in agreement with its panel map and focus, the reconciler of
monitor panes, and the workspace list with selection, groups and focus history.

**Text algorithms** (`Text`, `Scanners`, `Wrap`, `Jsonc`). The screen scanners against the patterns they
document, the word wrapper, and the comment stripper.

Shared definitions are in `Common`.

Some promises hold only under a condition, and there the exact condition is proved:

- Accepting a run goes by its recorded node name. The invariant behind the safety theorem, launches
  included, survives exactly when the verdict fits the node it names (`GraphLimits.AcceptInvIff`), and
  plain dependency safety exactly when that node does not still wait for a dependency
  (`GraphLimits.AcceptSafeIff`). The safety theorem takes every accept that fits, which one of a node's own
  current run always does (`GraphSafety.OwnRunFits`).
- Pausing or stopping a graph before its plan is approved strands it for good
  (`GraphLimits.StrandedForever`, `GraphLimits.StartsIff`). Resuming a stalled graph gets anywhere exactly when it has an
  interrupted node, or a blocked merge that now ends differently (`GraphLimits.ResumeMovesIff`).
- Under review only accepted nodes are ever done exactly when no resume retries, with success, the merge of
  a node not accepted (`GraphOutcomes.ReviewHoldsIff`). A resume takes any block whose reason begins with
  "merge" for one (`GraphOutcomes.MergeTalkSlipsThrough`); where no run or launch gives such a reason, none
  slips through (`GraphOutcomes.NoneDoneUnaccepted`).
- Assigning a workspace to a group with no other member can split the group it leaves
  (`TabLists.AssignContiguousIff`), and moving a group can split the one it is dropped into
  (`TabLists.GroupMovedContiguousIff`).
- Swapping two ids in the layout keeps its agreement with the panels exactly when both or neither is
  there (`Workspaces.SwapAgreesIff`), which is what its caller checks; a split in an emptied workspace
  leaves an empty pane (`Workspaces.InsertTidyIff`).
- The monitor reconciles a workspace exactly when there is a pane to start from, or nothing wanted, and no
  wanted transcript is shown twice already (`Monitors.SyncWorkspace`), which reopening a closed monitor tab brings about
  (`Monitors.ReopenDoubles`).
- The whole-word scan jumps past a failed occurrence and so misses some words that overlap themselves
  (`Scanners.WordMatchCompleteIff`); words made of word bytes, as all those the program looks for, are
  never missed.

## Model

| member | source | states |
|---|---|---|
| Proposal.ParseProposal | jmux/src/goal/graph.rs:375-462 | a plan is accepted, unchanged, exactly when it passes the static checks and its dependencies have no cycle; the cycle error comes exactly for the plans that fail only that; every other error names a fault that is there |
| Proposal.CheckNode | jmux/src/goal/graph.rs:391-412 | one node passes exactly when its id is valid, its goal is not blank, and its dependencies are known, other than itself and not repeated; an error names a real fault |
| Proposal.KahnAccepts | jmux/src/goal/graph.rs:413-445 | the worklist, whatever order the map starts it in, accepts exactly the acyclic dependency relations; each id is popped at most once and after all its dependencies |
| Proposal.InitialQueue | jmux/src/goal/graph.rs:424-428 | the worklist starts with exactly the ids of indegree zero, each once |
| Proposal.Relax | jmux/src/goal/graph.rs:432-440 | after popping an id, each node's count is again the number of its dependencies not yet popped, never below zero, and the queue holds exactly the ids not popped whose count is zero |
| Proposal.LeftoverHasCycle | jmux/src/goal/graph.rs:443-445 | ids never popped contain a dependency cycle |
| Dag.StuckSetHasCycle | jmux/src/goal/graph.rs:413-445 | a nonempty set of nodes each depending on another in the set has a cycle (a long walk inside it repeats a node) |
| Dag.TopologicalIsAcyclic | jmux/src/goal/graph.rs:413-445 | a topological order of all nodes rules out every cycle |
| Dag.AcyclicIsRanked | jmux/src/goal/graph.rs:1142-1232 | an acyclic closed relation has a rank that falls along every dependency, the measure behind the progress proofs |
| GraphRegistry.GraphSpec.TickRunning | jmux/src/goal/graph.rs:1142-1232 | one scheduler tick done in place equals the tick of the value model: sync, finish, launch, completion and stall checks |
| GraphRegistry.GraphSpec.SyncNodeStates | jmux/src/goal/graph.rs:1235-1289 | the two in-place passes (reflect each run, then finish the collected nodes) equal settling every node on its own |
| GraphRegistry.GraphSpec.SyncRuns | jmux/src/goal/graph.rs:1235-1282 | the first pass reflects every run into its node and collects exactly the nodes to be finished |
| GraphRegistry.GraphSpec.SyncNode | jmux/src/goal/graph.rs:1237-1280 | one node's run reflected into it, and whether the node is then to be finished |
| GraphRegistry.GraphSpec.FinishNode | jmux/src/goal/graph.rs:1293-1374 | finishing a node takes the higher iteration, merges its branch, and leaves it done, or blocked on a conflict or a dirty checkout; a done node is left alone |
| GraphRegistry.GraphSpec.Finished | jmux/src/goal/graph.rs:1301-1370 | what finishing makes of one node not yet done: its iteration, and done or blocked by the merge result |
| GraphRegistry.GraphSpec.FinishAll | jmux/src/goal/graph.rs:1283-1288 | finishing a list of nodes one after the other equals finishing each of them once |
| GraphRegistry.GraphSpec.LaunchNode | jmux/src/goal/graph.rs:1376-1467 | a started node runs in its new workspace with its branch and worktree recorded, and the launch log gains one entry with a report reference per dependency; a failed launch changes nothing |
| GraphRegistry.GraphSpec.LaunchOrBlock | jmux/src/goal/graph.rs:1187-1206 | a launch that fails blocks its node with the error and uses no slot |
| GraphRegistry.GraphSpec.ReadyIds | jmux/src/goal/graph.rs:1175-1184 | exactly the waiting nodes with all dependencies done, in node order |
| GraphRegistry.GraphSpec.LaunchInOrder | jmux/src/goal/graph.rs:1185-1207 | launching the collected ids until the slots run out equals one pass over the nodes |
| GraphRegistry.GraphSpec.LaunchReadyNodes | jmux/src/goal/graph.rs:1168-1207 | the launch phase equals the value model's launch pass with the free slots under the cap |
| GraphRegistry.GraphSpec.TickProposing | jmux/src/goal/graph.rs:1061-1140 | a usable plan found on disk waits for review, or starts when review is off; an unusable one changes nothing |
| GraphRegistry.GraphSpec.ApproveGraph | jmux/src/goal/graph.rs:648-668 | approval starts the plan exactly when the graph waits for one and the plan is acceptable |
| GraphRegistry.GraphSpec.SetGraphState | jmux/src/goal/graph.rs:801-814 | pausing and stopping change the state and nothing else |
| GraphRegistry.GraphSpec.ResumeGraph | jmux/src/goal/graph.rs:738-770 | interrupted nodes wait again, blocked merges are retried, all else stays; a graph without a plan is refused |
| GraphRegistry.GraphSpec.AcceptNode | jmux/src/goal/graph.rs:944-956 | accepting finishes the node that the workspace's run is linked to, by name |
| GraphRegistry.GraphSpec.ContinueNode | jmux/src/goal/graph.rs:959-974 | continuing sends the linked node back to running exactly when it is under review |
| GraphRegistry.GraphSpec.LoadAfterRestart | jmux/src/goal/graph.rs:308-348 | after a restart every running or reviewed node is interrupted without a workspace, and a running graph with such a node is paused |
| GraphRegistry.FinishOneMore | jmux/src/goal/graph.rs:1283-1288 | finishing one more node after a set of them equals finishing the larger set |
| GraphRegistry.SettledInTwoPasses | jmux/src/goal/graph.rs:1235-1289 | reflecting all runs first and finishing afterwards gives what settling node by node gives, base history included |
| GraphRegistry.ResumedInTwoPasses | jmux/src/goal/graph.rs:738-770 | the same for the two passes of a resume |
| GraphRegistry.LoopStep | jmux/src/goal/graph.rs:1185-1207 | one turn of the launch loop over collected ids matches the pass over the nodes, because a launch readies no other node |
| GraphOutcomes.TickOnNode | jmux/src/goal/graph.rs:1142-1289 | what a tick makes of each node, field by field: a running one follows its run (gone: interrupted; blocked: blocked for that reason; done under review: reviewed, at the run's iteration; done without: finished at the later iteration, done or blocked by its merge; else running on, at the run's iteration), a waiting one is left alone or launched with its dependencies done, every other stays as it is |
| GraphOutcomes.TickOnGraph | jmux/src/goal/graph.rs:1142-1232 | a tick adds exactly the branches merged in it to the base, logs every launch from that base, and leaves the settings alone |
| GraphOutcomes.LoopOnNode | jmux/src/goal/graph.rs:1185-1207 | the launch loop leaves a node alone, or finds it ready and runs it in the workspace reported with its own branch and worktree, or blocks it with the launch's error |
| GraphOutcomes.LoopInOrder | jmux/src/goal/graph.rs:1175-1207 | nodes are launched in plan order: while a ready one is left waiting, none after it is touched |
| GraphOutcomes.LoopLogs | jmux/src/goal/graph.rs:1376-1467 | the loop logs every node it starts, with the base as it is, and only those |
| GraphOutcomes.AcceptOnNode | jmux/src/goal/graph.rs:944-956 | accepting ends exactly the node the verdict names, unless done: at the later of its and its run's iteration, done, or blocked by its merge |
| GraphOutcomes.AcceptOnBase | jmux/src/goal/graph.rs:1301-1366 | and adds exactly that node's branch to the base, when git merged it |
| GraphOutcomes.ResumeOnNode | jmux/src/goal/graph.rs:738-770 | resuming sends interrupted nodes back to waiting, finishes those blocked on a merge anew, leaves every other node alone and sets the graph running |
| GraphOutcomes.ResumeOnBase | jmux/src/goal/graph.rs:738-770 | and adds exactly the branches it merged to the base; without nodes nothing happens |
| GraphOutcomes.ContinueOnNode | jmux/src/goal/graph.rs:959-974 | continuing sends exactly the named node back to running, if it is under review |
| GraphOutcomes.RestartOnNode | jmux/src/goal/graph.rs:308-348 | a restart interrupts every running and every reviewed node, forgets its workspace, pauses a running graph that had one, and changes nothing else |
| GraphOutcomes.PlanSteps | jmux/src/goal/graph.rs:648-735 | an acceptable plan found on disk waits for review or starts with every node waiting and blank; approval starts it; revision goes back to proposing; pause and stop set the state alone; everything else changes nothing |
| GraphOutcomes.TurnsDone | jmux/src/goal/graph.rs:944-1374 | a node turns done only in a tick without review that sees its run done, by a verdict naming it, or by a resume of its blocked merge, and records the later of its and its run's iteration |
| GraphOutcomes.NoneDoneUnaccepted | jmux/src/goal/graph.rs:944-1289 | over any run of a graph that reviews its iterations, no node is done that no earlier verdict accepted |
| GraphOutcomes.ReviewHoldsIff | jmux/src/goal/graph.rs:738-1289 | from any state of such a graph and over any steps, the nodes done are always accepted ones exactly when no resume retries, with success, the blocked merge of a node not accepted |
| GraphOutcomes.MergeTalkSlipsThrough | jmux/src/goal/graph.rs:738-770 | the input on which it would be: a run blocked for a reason that begins with merge is turned done by a resume |
| GraphOutcomes.LaunchRefersToReport | jmux/src/goal/graph.rs:1384-1417 | each reference of each launch over a whole run is to the iteration its dependency recorded when it turned done, no earlier than its run was at |
| GraphSafety.ReachableIsSafe | jmux/src/goal/graph.rs:738-1374 | in every state reachable from a created graph by any steps: every node past waiting has all its dependencies done, running and reviewed nodes never exceed the cap, and every launch ever made had complete upstream work |
| GraphSafety.RunInv | jmux/src/goal/graph.rs:738-1374 | the invariant holds over every run, done nodes never change again, launches are only added and merged work stays merged |
| GraphSafety.StepInv | jmux/src/goal/graph.rs:738-1374 | each of the ten steps keeps the invariant and only moves the graph forward |
| GraphSafety.TickInv | jmux/src/goal/graph.rs:1142-1232 | the scheduler tick keeps the invariant |
| GraphSafety.SettleInv | jmux/src/goal/graph.rs:1235-1374 | so does syncing and finishing |
| GraphSafety.ResumeInv | jmux/src/goal/graph.rs:738-770 | so does resuming, with its merge retries |
| GraphSafety.AcceptInv | jmux/src/goal/graph.rs:944-956 | so does accepting whenever the verdict fits the node it names: done already, or with its dependencies done, a report, and its work in the base where worktrees are used |
| GraphSafety.OwnRunFits | jmux/src/goal/graph.rs:944-956 | a verdict on a node's own current run always fits |
| GraphSafety.ContinueInv | jmux/src/goal/graph.rs:959-974 | so does continuing |
| GraphSafety.RestartInv | jmux/src/goal/graph.rs:308-348 | so does a restart |
| GraphSafety.StartPlanInv | jmux/src/goal/graph.rs:648-668 | so does starting an acceptable plan |
| GraphSafety.LaunchFromInv | jmux/src/goal/graph.rs:1185-1207 | so does the launch loop, which fills at most the free slots |
| GraphSafety.UpstreamComplete | jmux/src/goal/graph.rs:1384-1417 | when all dependencies are done, a launch refers to each exactly once, with its final iteration of at least one |
| GraphSafety.UpstreamMerged | jmux/src/goal/graph.rs:1301-1366 | with worktrees, the base then contains the merge of every transitive dependency |
| GraphSafety.NewLaunchInv | jmux/src/goal/graph.rs:1376-1417 | so each new launch starts from complete upstream work |
| GraphSafety.LaunchKept | jmux/src/goal/graph.rs:1384-1417 | what a launch refers to stays the final report through every later step |
| GraphProgress.TickVerdict | jmux/src/goal/graph.rs:1142-1232 | a tick completes the graph exactly when all nodes are done; it pauses it exactly when something waits and nothing works, and then every waiting node transitively depends on a blocked or interrupted one; otherwise some node works or none waits; no ready node waits while a slot is free |
| GraphProgress.PendingWaitsOnStopped | jmux/src/goal/graph.rs:1209-1219 | with nothing active and nothing ready, the chain of unfinished dependencies from any waiting node ends at a stopped one |
| GraphProgress.LaunchedConserves | jmux/src/goal/graph.rs:1168-1207 | after the launch loop the cap is full or no ready node is left |
| GraphProgress.FinishesAfterDeps | jmux/src/goal/graph.rs:1142-1374 | whatever step turns a node done, its dependencies were done before that step |
| GraphProgress.FinishesInOrder | jmux/src/goal/graph.rs:1142-1374 | over any run, a node that turned done did so in some step before which all its dependencies were done already: nodes finish in a topological order |
| GraphCompletion.FailureFreeCompletes | jmux/src/goal/graph.rs:1142-1374 | when nothing fails and runs keep finishing, a tick comes at which the graph is complete, every node done and launched exactly once |
| GraphCompletion.SmoothTick | jmux/src/goal/graph.rs:1142-1232 | a tick without failures lowers the rank sum (two for waiting, one for running) whenever it sees a finished run or launches, and leaves some node working unless it completes the graph |
| GraphCompletion.LaunchFromOnce | jmux/src/goal/graph.rs:1185-1207 | the launch loop launches no node twice and lowers the rank by one per launch |
| GraphCompletion.Advances | jmux/src/goal/graph.rs:1142-1232 | from any tick on, the graph completes or its rank drops |
| GraphCompletion.StartIsFree | jmux/src/goal/graph.rs:648-668 | a freshly started plan meets the hypotheses, with rank twice its size |
| GraphLimits.AcceptSafeIff | jmux/src/goal/graph.rs:944-956 | accepting by name keeps dependency safety exactly when the named node does not still wait for a dependency |
| GraphLimits.AcceptInvIff | jmux/src/goal/graph.rs:944-956 | accepting by name keeps the whole invariant, upstream work behind launches included, exactly when the verdict fits the node it names |
| GraphLimits.StaleAcceptLosesReport | jmux/src/goal/graph.rs:944-956 | a concrete leftover run marks a waiting root done without a report, and the node after it would launch with no reference |
| GraphLimits.StaleAcceptBreaksSafety | jmux/src/goal/graph.rs:944-956 | a concrete leftover run of an earlier graph marks a node done before its dependency |
| GraphLimits.StrandedForever | jmux/src/goal/graph.rs:648-770 | a graph paused or stopped before it has a plan can never run again: no sequence of steps launches anything |
| GraphLimits.StartsIff | jmux/src/goal/graph.rs:648-770 | a graph without a plan can still come to have nodes exactly when it waits for a plan or is running |
| GraphLimits.ResumeMovesIff | jmux/src/goal/graph.rs:738-770 | with nothing active and nothing ready, a resume and the next tick change a node or launch exactly when there is an interrupted node, or a blocked merge that now ends differently |
| GraphLimits.InterruptedRunsAgain | jmux/src/goal/graph.rs:738-770 | an interrupted node is driven again: after a resume and a tick some node works, or its launch failed |
| GraphLimits.ResumeStallsAgain | jmux/src/goal/graph.rs:738-770 | resuming a stalled graph whose stopped nodes are blocked for other reasons than a merge is undone by the next tick |
| GoalDriver.GoalRun.DriveOne | jmux/src/goal/mod.rs:902-1105 | one driver tick in place equals the value model's tick: report, missing status line, hibernation, time limit, unreadable screen, menu, busy, idle, nudge |
| GoalDriver.GoalRun.EscalateTo | jmux/src/goal/mod.rs:1197-1228 | the status is set and a human told at most once a minute, except that entering a terminal status is always told |
| GoalDriver.GoalRun.AdvanceIteration | jmux/src/goal/mod.rs:1247-1332 | the next iteration begins with all counters cleared exactly when the report is there, the agent alive and the prompt sent |
| GoalDriver.DriveCounters | jmux/src/goal/mod.rs:902-1181 | what a tick can do to iteration, nudge, idle and escalation counters, whichever branch it takes |
| GoalDriver.BudgetsHold | jmux/src/goal/mod.rs:1043-1186 | over any ticks and human verdicts: automatic iterations stop at the larger of start and cap, nudges since the last iteration stay within the budget, and all nudges are bounded by the budget per iteration begun |
| GoalDriver.NudgesAreDebounced | jmux/src/goal/mod.rs:1060-1102 | every nudge follows at least max(1, threshold) idle observations since the last busy one, nudge or new iteration |
| GoalDriver.PromptsNeedLiveAgent | jmux/src/goal/mod.rs:902-1102 | nothing is typed to an agent known to be gone; nudges never go to a menu, a hibernated agent or a run that has reported |
| GoalDriver.EscalationsAreSpaced | jmux/src/goal/mod.rs:1197-1228 | what a human is told of runs that go on is at least a minute apart |
| GoalOutcomes.TickOnReport | jmux/src/goal/mod.rs:907-940 | a done report ends the run as done and types nothing; a blocked one begins the next iteration below the cap, if the agent can be told, and ends the run as blocked at it; any other report, or one without a status line, asks for attention; a closed workspace drops the run |
| GoalOutcomes.TickUnseen | jmux/src/goal/mod.rs:942-969 | without a report, a hibernated agent is left alone, an overrun clock blocks the run, and a run of an agent whose screen is not understood is left alone |
| GoalOutcomes.TickOnScreen | jmux/src/goal/mod.rs:970-1052 | an unreadable screen is counted and asks for attention at the thirtieth in a row; a menu asks for attention; a busy screen clears the idle count and the attention |
| GoalOutcomes.TickOnIdle | jmux/src/goal/mod.rs:1055-1102 | an idle screen is counted below the threshold; past it an agent that is gone blocks the run, a spent budget asks for attention, and else one nudge is typed, counted and the idle count cleared |
| GoalOutcomes.TickEndsIff | jmux/src/goal/mod.rs:902-1181 | a tick turns a run done exactly on a done report in an open workspace, and blocked exactly on a blocked report at the cap, an overrun clock without a report, or a debounced idle screen with the agent gone |
| GoalOutcomes.ContinueOnRun | jmux/src/goal/mod.rs:1247-1332 | a human's continue begins the next iteration, counters cleared, exactly when there is a report and the agent can be told; else nothing changes |
| GoalOutcomes.VerdictsOnRun | jmux/src/goal/mod.rs:764-775 | a verdict sets the status and nothing else; a tick leaves an ended run alone |
| GoalOutcomes.DoneMeans | jmux/src/goal/mod.rs:907-1181 | over any events, a run is done only by a done report, by its agent saying so (jmux/src/socket/v2/goal.rs:211-262), or by a human's acceptance |
| GoalOutcomes.DoneReportEnds | jmux/src/goal/mod.rs:1114-1129 | the first done report seen ends a run that goes on, at its iteration |
| GoalDriver.DecimalRoundTrip | jmux/src/goal/mod.rs:113-115 | an iteration number is read back from its decimal digits |
| GoalDriver.IterationFileRoundTrip | jmux/src/goal/mod.rs:113-115 | an iteration file's name parses to its iteration |
| GoalDriver.NextIterationNumber | jmux/src/goal/mod.rs:783-808 | one past the highest iteration there is a file for, by a running maximum |
| GoalDriver.NextIsFresh | jmux/src/goal/mod.rs:783-808 | so the next iteration's report file does not exist yet |
| Layout.RemoveIds | jmux/src/model/panel.rs:557-586 | removing a panel deletes exactly that id from the in-order sequence, and says whether it was there |
| Layout.SplitIds | jmux/src/model/panel.rs:853-900 | splitting puts the new id before or after the whole target pane |
| Layout.AddIds | jmux/src/model/panel.rs:832-850 | a tab is added right after its target |
| Layout.ReorderIds | jmux/src/model/panel.rs:817-829 | a panel reordered within its pane lands at the clamped index and nothing else moves |
| Layout.SwapPanels | jmux/src/model/panel.rs:673-711 | the in-place scan transposes the two ids and the selections, and says whether it changed anything |
| Layout.SwapOrder | jmux/src/model/panel.rs:679-711 | swapping transposes the two ids in the in-order sequence |
| Layout.SwapTwice | jmux/src/model/panel.rs:679-711 | swapping is its own inverse, on the whole tree |
| Layout.RemoveKeeps | jmux/src/model/panel.rs:557-586 | removal keeps each selection in its pane and leaves no empty pane under a split |
| Layout.SplitKeeps | jmux/src/model/panel.rs:853-900 | so does splitting |
| Layout.AddKeeps | jmux/src/model/panel.rs:832-850 | so does adding a tab |
| Layout.ReorderKeeps | jmux/src/model/panel.rs:817-829 | so does reordering |
| Layout.SwapKeeps | jmux/src/model/panel.rs:679-711 | so does swapping, and ids stay distinct |
| LayoutOutcomes.SplitReplaces | jmux/src/model/panel.rs:853-900 | splitting replaces the target's pane, and no other node, by it and a pane of just the new panel, selected: before it to the left or up, after it to the right or down |
| LayoutOutcomes.AddReplaces | jmux/src/model/panel.rs:832-850 | adding a tab replaces only the target's pane, by one with the panel right after the target and selected |
| LayoutOutcomes.ReorderReplaces | jmux/src/model/panel.rs:817-829 | reordering replaces only the panel's pane, by one with it at the index, at most last, the others in order and the same tab selected |
| LayoutOutcomes.RemoveReplaces | jmux/src/model/panel.rs:557-586 | removing replaces only the panel's pane, by one without it whose first tab is selected if it was; a pane left empty goes with its split, whose other side takes the split's place |
| LayoutOutcomes.UpdateReplaces | jmux/src/model/panel.rs:817-900 | an edit of a panel's pane replaces that pane and nothing else |
| Neighbors.NeighborIsFarEdge | jmux/src/model/panel.rs:759-813 | directional focus finds a panel exactly when some split on the direction's axis has the panel on the near side and anything on the far side, and it is the far edge at the deepest such split |
| Neighbors.NeighborOfSplit | jmux/src/model/panel.rs:759-813 | side by side, going right reaches the second side's first panel and left the first side's last; one above the other, so do down and up; other directions stay on the own side |
| Workspaces.AlwaysAgrees | jmux/src/model/workspace.rs:248-803 | under any sequence of splits, inserts, removals, detaches, reopens, moves, drags, focus changes, tab reorders and swaps of two of its panels, the layout lists each key of the panel map exactly once and nothing else, and the focus is a live panel exactly when there is any |
| Workspaces.ApplyAgrees | jmux/src/model/workspace.rs:248-803 | each operation keeps that agreement |
| Workspaces.SwapAgreesIff | jmux/src/model/panel.rs:673-711 | swapping two ids in the layout keeps the agreement exactly when both or neither is there, so the caller's guard against absent panels (jmux/src/socket/v2/pane.rs:282) is exactly what is needed |
| Workspaces.ReorderAgrees | jmux/src/model/panel.rs:817-829 | reordering the tabs of a pane keeps the agreement |
| Workspaces.InsertTidyIff | jmux/src/model/workspace.rs:452-487 | splitting off a panel leaves an empty pane in the tree exactly when there was no panel to split beside |
| Workspaces.ReopenUndoesRemove | jmux/src/model/workspace.rs:302-366 | reopening gives back the panel just closed under its new id; only a full list has lost its oldest |
| Workspaces.DragAgrees | jmux/src/model/workspace.rs:490-532 | dragging keeps the agreement, and does nothing only to an absent or sole panel |
| Workspaces.FocusAgrees | jmux/src/model/workspace.rs:789-803 | focusing keeps the agreement and the order of ids |
| WorkspaceOutcomes.InsertOutcome | jmux/src/model/workspace.rs:452-487 | inserting puts the panel in a pane after the focused pane, or after everything without a focus, focuses it, remembers the focus before and changes nothing else |
| WorkspaceOutcomes.SplitMakes | jmux/src/model/workspace.rs:248-300 | a split makes the kind asked for, a terminal instead of a monitor or graph, with an empty path for the kinds that show a file |
| WorkspaceOutcomes.RemoveOutcome | jmux/src/model/workspace.rs:302-342 | removing moves the focus only from the panel removed: to the tab on its left, else on its right, else the first panel left; it is the newest of the ten closed ones kept |
| WorkspaceOutcomes.ReopenOutcome | jmux/src/model/workspace.rs:347-366 | the last closed panel comes back under its new id right after the focused one, or as the only one, and is focused |
| WorkspaceOutcomes.DetachOutcome | jmux/src/model/workspace.rs:371-389 | detaching moves the focus to the first panel left if it was on the panel, clears the other marks on it, and remembers nothing |
| WorkspaceOutcomes.MoveOutcome | jmux/src/model/workspace.rs:393-418 | moving puts the panel right after the target in its pane, selected and focused; onto its own pane or an absent panel it changes nothing |
| WorkspaceOutcomes.SplitIntoOutcome | jmux/src/model/workspace.rs:421-449 | splitting into another's pane puts the panel in a pane of its own beside it, on the side of the direction, focused |
| WorkspaceOutcomes.DragOutcome | jmux/src/model/workspace.rs:490-532 | dragging left or right splits side by side, up or down one above the other, beside the focused panel, or the first other one when the panel dragged has the focus |
| WorkspaceOutcomes.FocusOutcome | jmux/src/model/workspace.rs:789-803 | focusing selects the panel's tab in its pane alone and remembers the focus before, unless it is the same |
| Workspaces.Workspace.constructor | jmux/src/model/workspace.rs:173-215 | a new workspace has one terminal, focused, and agrees |
| Workspaces.Workspace.InsertPanel | jmux/src/model/workspace.rs:452-487 | the in-place insert equals the value model's and keeps the agreement |
| Workspaces.Workspace.Split | jmux/src/model/workspace.rs:248-300 | so does the split by panel kind, which makes a terminal of the kinds it cannot make |
| Workspaces.Workspace.RememberClosed | jmux/src/model/workspace.rs:302-342 | closed panels are kept newest last, and never more than ten |
| Workspaces.Workspace.RemovePanel | jmux/src/model/workspace.rs:302-342 | so does removal, with the focus going to the tab beside, else to the first panel left |
| Workspaces.Workspace.ReopenLastClosedPanel | jmux/src/model/workspace.rs:347-366 | so does reopening |
| Workspaces.Workspace.DetachPanel | jmux/src/model/workspace.rs:371-389 | so does detaching, which returns the panel and clears what pointed at it |
| Workspaces.Workspace.MovePanelToPane | jmux/src/model/workspace.rs:393-418 | so does moving a tab; it moves exactly between different panes of this workspace |
| Workspaces.Workspace.SplitPanelIntoPane | jmux/src/model/workspace.rs:421-449 | so does splitting a panel into another's pane |
| Workspaces.Workspace.DragToSplit | jmux/src/model/workspace.rs:490-532 | so does dragging; it succeeds exactly when another panel exists |
| Workspaces.Workspace.FocusPanel | jmux/src/model/workspace.rs:789-803 | so does focusing |
| Monitors.SyncWorkspace | jmux/src/agent_monitor.rs:114-219 | from any workspace in agreement, reconciling keeps the agreement and the other panels in their order; afterwards there is exactly one monitor per wanted transcript and no other exactly when monitors can be placed and no wanted transcript was shown twice before; it changes something exactly when there is an unwanted pane or a missing one that can be placed, and a second call changes nothing; the focus and the other marks stay wherever their panels stay |
| Monitors.DropStale | jmux/src/agent_monitor.rs:118-150 | in any order, exactly the unwanted monitor panes go; marks on other panels stay, and a focus on one that goes moves to the first panel left |
| Monitors.AddMissing | jmux/src/agent_monitor.rs:152-216 | the wanted transcripts without a pane get one, all of them exactly when there is a pane to start from, and none gets a second; in their order, each new pane comes after the monitor of the transcript before, side by side for an even number of monitors and below for an odd one |
| Monitors.AddOne | jmux/src/agent_monitor.rs:168-213 | a new pane is placed after its anchor alone: the monitor before, else the focused panel if it is none, else some panel that is none; the focus does not move |
| Monitors.KeptOnce | jmux/src/agent_monitor.rs:118-150 | with the unwanted panes gone, no transcript is shown twice exactly when no wanted one was before |
| Monitors.ReopenDoubles | jmux/src/model/workspace.rs:347-366 | closing a monitor tab, having the monitor open a new one for its transcript and reopening the closed tab leaves the transcript shown twice |
| TabLists.AssignContiguousIff | jmux/src/model/tab_manager.rs:588-620 | when every group is adjacent, assigning a workspace keeps all groups adjacent, the one it leaves included, exactly when the group it joins has another member or it did not sit inside its old group |
| TabLists.AssignedToMembers | jmux/src/model/tab_manager.rs:602-618 | joining a group with another member always keeps every group adjacent |
| TabLists.GroupMovedIsBlock | jmux/src/model/tab_manager.rs:626-656 | moving a group yields one block and keeps the order inside and outside it, with the same workspaces |
| TabLists.GroupMovedContiguousIff | jmux/src/model/tab_manager.rs:626-656 | when every group is adjacent, moving a group keeps all of them adjacent exactly when it is not dropped before a workspace that comes after another member of its own group |
| TabLists.GroupMovedBeforeTarget | jmux/src/model/tab_manager.rs:640-648 | a target outside the group ends up right after the block |
| TabLists.RecordedOk | jmux/src/model/tab_manager.rs:678-693 | recording keeps at most fifty entries, no two equal neighbours and the cursor in range, with the workspace as current entry |
| TabLists.BackSkipsDead | jmux/src/model/tab_manager.rs:754-764 | going back reaches the nearest earlier live entry and skips only dead ones |
| TabLists.AheadSkipsDead | jmux/src/model/tab_manager.rs:767-777 | going forward reaches the nearest later live entry and skips only dead ones |
| TabLists.BackThenAhead | jmux/src/model/tab_manager.rs:754-777 | back and then forward from a live entry returns to it exactly when it is not the first of the history, whatever dead entries lie between |
| TabLists.AheadThenBack | jmux/src/model/tab_manager.rs:754-777 | forward and then back from a live entry returns to it exactly when it is not the last of the history |
| TabLists.MovedAt | jmux/src/model/tab_manager.rs:350-371 | every workspace of a moved list is at its shifted index |
| TabLists.MovedMeans | jmux/src/model/tab_manager.rs:350-371 | the workspace ends up at its target position and the others keep their order |
| TabLists.AssignedMeans | jmux/src/model/tab_manager.rs:602-618 | an assigned workspace goes right after the last other member of its new group, or stays where it is when there is none, and the others keep their order |
| TabLists.GroupMovedToEnd | jmux/src/model/tab_manager.rs:640-648 | without a target outside the group, the block goes to the end |
| TabLists.RecordedMeans | jmux/src/model/tab_manager.rs:678-693 | recording the current entry changes nothing; else the history is what led up to the current entry and then the workspace, the newest fifty of it |
| Tabs.MoveConserves | jmux/src/model/tab_manager.rs:470-504 | moving a panel across workspaces conserves all panels, keeps every workspace in agreement and apart from the others, the closed ones included, and puts the panel in the target, exactly when the panel is elsewhere and the target exists |
| Tabs.CloseTakesOnlyIt | jmux/src/model/tab_manager.rs:286-296 | closing a panel takes that panel and no other, and keeps every workspace in agreement and apart from the others |
| Tabs.CloseOnList | jmux/src/model/tab_manager.rs:286-296 | in the list, closing a workspace's last panel takes the workspace out; otherwise it stays in its place without the panel; every other workspace is as it was and where it was |
| Tabs.MoveOnList | jmux/src/model/tab_manager.rs:470-504 | in the list, the target stays in its place, has the panel too and focuses it; the source goes exactly with its last panel and else stays in its place without it; every other workspace is as it was |
| Tabs.CloseNowhere | jmux/src/model/tab_manager.rs:286-289 | closing a panel that is nowhere changes nothing |
| Tabs.RememberedMeans | jmux/src/model/tab_manager.rs:244-275 | a workspace closed without panels is not remembered; any other is the newest of the ten kept, in order |
| Tabs.DroppedAt | jmux/src/model/tab_manager.rs:379-446 | the workspaces left are all those pinned and the one to keep, in their order |
| Tabs.HousedOperated | jmux/src/model/tab_manager.rs:304-306 | any operation on one workspace that brings in only new panels keeps all workspaces in agreement and apart |
| Tabs.HousedWithin | jmux/src/model/tab_manager.rs:172-656 | rearranging the list or leaving workspaces out lets no two share a panel |
| Tabs.HousedReopened | jmux/src/model/tab_manager.rs:698-708 | a closed workspace shares no panel with the live ones or the other closed ones, so it can come back |
| Tabs.DroppedKeeps | jmux/src/model/tab_manager.rs:379-400 | closing several drops exactly the unpinned ones other than the one kept |
| Tabs.TabManager.constructor | jmux/src/model/tab_manager.rs:45-55 | a new list has one workspace, selected, and is valid: ids distinct, selection and history in range, every live or closed workspace in agreement and no two sharing a panel, which every method keeps |
| Tabs.TabManager.Empty | jmux/src/model/tab_manager.rs:58-67 | an empty list has no selection |
| Tabs.TabManager.SelectById | jmux/src/model/tab_manager.rs:110-117 | selects the workspace with the id exactly when it is there |
| Tabs.TabManager.AddWorkspaceWithPlacement | jmux/src/model/tab_manager.rs:172-208 | a new workspace goes where the placement says and is selected |
| Tabs.TabManager.AddWorkspaceKeepSelection | jmux/src/model/tab_manager.rs:219-241 | a new workspace goes where the placement says and the same workspace stays selected |
| Tabs.TabManager.Remove | jmux/src/model/tab_manager.rs:244-275 | any other workspace stays selected; in place of the selected one its successor is, else its predecessor; a workspace with panels is remembered, at most ten |
| Tabs.TabManager.ReopenLastClosed | jmux/src/model/tab_manager.rs:698-708 | the most recently closed workspace comes back at the end and selected, unless it is still there; else the selection stays |
| Tabs.TabManager.MoveWorkspace | jmux/src/model/tab_manager.rs:350-371 | the workspace moves and the same workspace stays selected |
| Tabs.TabManager.AssignToGroup | jmux/src/model/tab_manager.rs:588-620 | the workspace joins the group next to its last other member and the same workspace stays selected; an unknown group or workspace changes nothing |
| Tabs.TabManager.MoveGroupBefore | jmux/src/model/tab_manager.rs:626-656 | the group becomes one block before the target or at the end and the same workspace stays selected |
| Tabs.TabManager.CloseOthers | jmux/src/model/tab_manager.rs:379-400 | the unpinned others go and the kept one is selected, or without it the first left |
| Tabs.TabManager.CloseAbove | jmux/src/model/tab_manager.rs:403-422 | the unpinned ones above go and the target is selected |
| Tabs.TabManager.CloseBelow | jmux/src/model/tab_manager.rs:425-446 | the unpinned ones below go; the selected index only stays in bounds, at the last one |
| Tabs.TabManager.RecordFocusIfChanged | jmux/src/model/tab_manager.rs:678-693 | the selected workspace becomes the newest history entry, dropping what lay ahead |
| Tabs.TabManager.FocusBack | jmux/src/model/tab_manager.rs:754-764 | the loop selects the nearest earlier live entry, or leaves the selection alone |
| Tabs.TabManager.FocusForward | jmux/src/model/tab_manager.rs:767-777 | the loop selects the nearest later live entry, or leaves the selection alone |
| Tabs.TabManager.FindWorkspaceWithPanel | jmux/src/model/tab_manager.rs:449-453 | the first workspace that has the panel |
| Tabs.TabManager.ClosePanel | jmux/src/model/tab_manager.rs:286-296 | closes the tab wherever it lives and its workspace with its last tab, taking exactly that panel; the selection stays, and moves to the next workspace, else the one before, exactly when the selected one goes |
| Tabs.TabManager.MovePanelToWorkspace | jmux/src/model/tab_manager.rs:470-504 | detach, drop an emptied source, insert: equals the value model's move and conserves all panels; the selection moves exactly when the selected workspace goes |
| Tabs.TabManager.Operate | jmux/src/model/tab_manager.rs:304-306 | changing one workspace by any of its operations leaves the others, the selection and the validity as they were |
| Scanners.HasLiveTimer | jmux/src/model/claude_state.rs:234-275 | true exactly when one of the two documented timer patterns occurs somewhere |
| Scanners.HasPointerMenu | jmux/src/model/claude_state.rs:381-404 | true exactly when some two or more consecutive lines are numbered from one with a pointer among them; jumping past a run misses no menu |
| Scanners.OptionRead | jmux/src/model/claude_state.rs:355-376 | every line made of indent, optional pointer, number, full stop or parenthesis, space and label is read as that option |
| Scanners.OptionHasParts | jmux/src/model/claude_state.rs:355-376 | and every line read as an option is made of such parts |
| Scanners.IsWordMatch | jmux/src/model/claude_state.rs:59-76 | the scan over non-overlapping occurrences, for every word on which it ends |
| Scanners.EmptyWordStays | jmux/src/model/claude_state.rs:59-76 | the scan of the empty word does not end exactly when the text starts with a word byte: it then stays at the start |
| Scanners.WordMatchCompleteIff | jmux/src/model/claude_state.rs:59-76 | the scan finds a whole word in every text that has one exactly when, wherever the word overlaps itself, a word byte precedes the overlap |
| Scanners.PlainWordMatch | jmux/src/model/claude_state.rs:59-76 | for a word of word bytes the scan is true exactly when a whole-word occurrence exists |
| Scanners.MissedWhenUnsafe | jmux/src/model/claude_state.rs:59-76 | the text in which a word that overlaps itself after another byte is missed |
| Text.LinesOfText | jmux/src/model/claude_state.rs:382-382 | splitting a text without carriage returns into lines loses nothing but a missing final newline |
| Text.LinesOfUnlines | jmux/src/model/claude_state.rs:382-382 | lines put together are split back into the same lines |
| Text.LinesEnd | jmux/src/model/claude_state.rs:382-382 | a line ends at its first newline, taking a carriage return right before it along; a text without a newline is one line |
| Wrap.Wrapped | jmux-cli/src/agent_view.rs:299-339 | the nested loops emit exactly the specified lines, none longer than the effective width, and one empty line for an empty text |
| Wrap.WrapLong | jmux-cli/src/agent_view.rs:307-333 | one long line wrapped word by word equals the specification |
| Wrap.BreakWord | jmux-cli/src/agent_view.rs:320-328 | a word longer than the width is broken character by character as the specification says |
| Wrap.WrappedFits | jmux-cli/src/agent_view.rs:299-339 | no specified line is longer than the width |
| Wrap.WrapKeepsText | jmux-cli/src/agent_view.rs:302-333 | a wrapped line keeps its characters other than spaces, all of them and in order, hard-split words included |
| Wrap.WrapCovers | jmux-cli/src/agent_view.rs:302-333 | a line that fits stays as it is, indentation included; the lines of a longer one, in order, are all of it but for spaces between them |
| Wrap.WrapLinesCover | jmux-cli/src/agent_view.rs:299-339 | a text is wrapped line by line, each of its lines covered by lines of its own |
| Wrap.Width | jmux-cli/src/agent_view.rs:300-300 | the width is what the indent leaves of the columns, and at least eight |
| Wrap.WrapKeepsWords | jmux-cli/src/agent_view.rs:309-332 | when every word fits, the emitted lines hold exactly the line's words in order: no word is broken |
| Wrap.WrapIsTight | jmux-cli/src/agent_view.rs:311-314 | a line is broken only where the next word, or as much of it as fits a line, would not have fitted |
| Wrap.WordsOf | jmux-cli/src/agent_view.rs:309-309 | the pieces between spaces have no space in them and give the line back when joined |
| Jsonc.StripComments | jmux-cli/src/config.rs:29-82 | the loop's output is the text's tokens with each comment replaced by its newlines |
| Jsonc.LexLosesNothing | jmux-cli/src/config.rs:29-82 | the tokens (characters, string literals, comments) together are the text |
| Jsonc.StripTokens | jmux-cli/src/config.rs:29-82 | the stripped text divides into the same tokens, each comment into its newlines |
| Jsonc.StripOnce | jmux-cli/src/config.rs:26-82 | no comment is left outside a string literal, and stripping again changes nothing |
| Jsonc.StripKeepsLiterals | jmux-cli/src/config.rs:34-43 | every string literal is copied verbatim, in order |
| Jsonc.StripKeepsNewlines | jmux-cli/src/config.rs:50-70 | the stripped text has as many newlines as the text |
| Jsonc.LiteralEnds | jmux-cli/src/config.rs:34-43 | a string literal ends at its first quote after an even number of backslashes (section 7 of RFC 8259), or with the text |
| Jsonc.BlockEnds | jmux-cli/src/config.rs:59-70 | a block comment ends at its first closing pair, or with the text |
| Jsonc.LineEnds | jmux-cli/src/config.rs:48-56 | a line comment ends before its first newline, or with the text |
| Jsonc.StripPlain | jmux-cli/src/config.rs:70-76 | a character outside literals that opens no comment is copied |
| Jsonc.StripLine | jmux-cli/src/config.rs:48-56 | a line comment strips to the newline that ends it, which stays, and the rest is stripped on its own |
| Jsonc.StripBlock | jmux-cli/src/config.rs:59-70 | a block comment strips to its newlines up to its first closing pair, and the rest is stripped on its own; unclosed, it goes to the end |
| Jsonc.StripLiteral | jmux-cli/src/config.rs:34-43 | a string literal stays up to its first unescaped quote, and the rest is stripped on its own; unclosed, it stays to the end |

## Left out

- GraphSafety.ReachableIsSafe: accepts are ones that fit (any other breaks the invariant, by `GraphLimits.AcceptInvIff`), run iterations are at least one, and a launch error's text does not begin with "merge", as none of the launcher's messages does.
- GraphSafety.UpstreamMerged: the base checkout's history only grows; a human who rewrites it is not modelled, and neither are two graphs sharing worktree paths.
- GraphProgress.TickVerdict: the cap is at least one; a graph whose unfinished nodes are all blocked or interrupted stays running, as in the code.
- GraphCompletion.FailureFreeCompletes: that runs of working nodes eventually finish, launches start and merges succeed are hypotheses about the surroundings.
- GraphRegistry.GraphSpec.TickProposing: the modification time and counters that decide whether a plan file is looked at are part of the surroundings, and orchestrator workspaces are left out.
- GraphRegistry.GraphSpec.Finished: the texts of block reasons are shortened; what counts is that merge blocks begin with "merge".
- GraphRegistry.GraphSpec.AcceptNode: the registry lookup by graph name is the check that the run's link names this graph.
- GraphRegistry.GraphSpec.SetGraphState: stopping a graph also marks its goal runs blocked and removes an empty sidebar group; the runs are environment here, and reach the graph through the next sync.
- GraphOutcomes.NoneDoneUnaccepted: no run's block reason and no launch error begins with "merge", as none of the program's own does (jmux/src/goal/mod.rs:771-1156).
- GoalOutcomes.DoneMeans: the agent's claim is compared as given; the code lowercases it first.
- GoalDriver.GoalRun.DriveOne: the run's reads of files, process table and screen come as one observation; the code clones the run and locks again later, and one tick is taken as atomic. The texts of reasons stand for the code's messages.
- GoalDriver.NextIterationNumber: counters and iteration numbers are unbounded; the 32-bit wrap of one past the largest number is not modelled.
- Layout.SwapPanels: the other layout edits are functions on the tree instead of updates in place; the tree owns its children, so there is no aliasing to model.
- Workspaces.Workspace.Split: fresh panel ids are arguments required not to be in use (the code draws random UUIDs); titles, directories, divider arithmetic, status entries, logs and notifications are left out.
- Monitors.SyncWorkspace: the discovered transcripts and the new panel ids are arguments, pane titles are left out, and stale panes may go in any order.
- Tabs.TabManager.CloseBelow: the selection is only kept in bounds, as in the code.
- Tabs.TabManager.AddWorkspaceWithPlacement: a workspace added is in agreement and its panels are new, as those of a workspace just made are; restoring a session is left out.
- Tabs.TabManager.Remove: a closed entry's title and time are left out.
- Scanners.IsWordMatch: an empty word before a word byte is left out, on which the code's loop does not end (`Scanners.EmptyWordStays`); texts are bytes, so a match is one of the UTF-8 encoding.
- Scanners.HasLiveTimer: which characters are alphanumeric in Unicode is an argument, and a word character is such a one or an underscore, as in the code.
- Scanners.HasPointerMenu: option numbers above 32 bits are no options, as in the code; the expected number itself is unbounded.
- Wrap.Wrapped: a column is one character, as in the code; wide and combining characters are not told apart.
- Selecting the next, previous, last or newest unread workspace, renaming, colouring and collapsing groups, and reopening a chosen closed entry: only easy members.
- Creating and revising graphs, prompts, seeds, launch commands, markdown and JSON rendering, settings, permission modes: text and lookup without a law to prove.
- GTK, terminal, browser, sockets, process scans and persistence: input and output.
