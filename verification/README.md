# Ductum scheduling core: a verified model

This project models the part of Ductum that decides what runs, when, and what it cost, and proves the
guarantees that the rest of the factory leans on. Everything is Dafny; `dafny verify dfyconfig.toml` checks it.

| module | what it models |
|---|---|
| `TaskGraphs`, `Sequences`, `Options` | dependency graphs, walks, cycles, topological orders; small shared notions |
| `TaskDag`, `TaskDagSolution` | `evaluateTaskDAG`: the in-place fixpoint loop over task statuses, and what it computes |
| `TaskDagTermination`, `TaskDagOrder` | exactly when that loop ends, and exactly when its result depends on the scan order |
| `CycleSearch`, `DagValidation` | `findTaskCycle` (depth-first search) and `validateDAG` (Kahn's algorithm) |
| `TaskLifecycle` | whole histories of evaluation, dispatch, run endings, crash retries, failover, heartbeat stalls |
| `CompletionProtocol`, `CompletionGuarantees` | the four event sources that race to finish a run, and the release of its session |
| `DispatchCycle` | the polling cycle: agent matching, slots, one session per agent |
| `ApprovalLineage` | the search for open descendant runs |
| `EventStream` | the incremental server-sent-events parser of the command line |
| `CanonicalJson` | the two canonical JSON encodings used as dedup keys and fingerprints |
| `SessionCost`, `CodexScanner` | absolute usage snapshots and cumulative counters turned into deltas and costs |
| `AgentHealth` | the pruned failure window and the cooldown of an agent |

Where a step function mirrors the code, what it does is stated once more without it: on the tables, the log, the
text, or the event and the outcomes of its awaits.

Objects whose fields the program updates are classes with those fields; each method is proved equal to a
function of the old state, and the properties are lemmas about those functions. Where calls suspend, one step
is the code between two awaits, and a suspended call is a value that remembers its locals and the await it is
suspended in; properties then quantify over every list of steps, that is, every interleaving. Tokens and
costs are integers or reals, prices are arbitrary, text is a sequence of characters or of UTF-16 code units.

## What is false of the code, and exactly when

- `evaluateTaskDAG` can run for ever. It ends for every scan order, starting table, set of blind reviews and run
  records if and only if no three or more tasks form a ring in which each depends on the next one and on no other
  of them (`TaskDagTermination.LoopEndsExactly`). Acyclic graphs have no such ring, and there n + 1 passes are enough
  (`TaskDag.DAGEvaluator.EvaluateTaskDAG`); tasks that depend on themselves or in pairs on each other do no harm
  either.
- The result can depend on the scan order. On an acyclic graph without waiting blind reviews it does not if and
  only if every pending or blocked task with a run that a failure can reach fails in topological order, too
  (`TaskDagOrder.OnlyRunsMatter`). With waiting blind reviews three more conditions are needed: a review that a
  passing failure could release is ready in topological order, a failed review that could be revived is not failed
  in topological order, and such a review that later failures could release is ready in topological order. Together
  they always suffice (`TaskDagOrder.EveryOrderIsIntended`), and they are exact
  (`TaskDagOrder.ScanOrderIsIrrelevantExactly`) unless the last one fails for a review one of whose dependencies
  started failed; there it need not be necessary (`TaskDagOrder.UndecidedCanBeIrrelevant`). The simple sufficient
  condition is `TaskDagSolution.ScanOrderIsIrrelevant`, with an instance for each hypothesis it drops.
- A requested completion can be lost. It waits until a handler takes the run over and acts as requested, or until
  its timer fires while the run is routed, closed or being finished (`CompletionGuarantees.RequestWaits`). In the last
  case some handler holds the run (`CompletionGuarantees.RefusedRequestHasHolder`), and what is known of it at that
  moment and how its awaits end decide: if it is the routing of a stored completion, the request is lost if and only
  if that routing rejects (`CompletionGuarantees.RefusedByStoredIsLostExactly`); if it ends a session, the request is
  lost, once the run is let go, unless that session had been routed already or exited as completed and all its awaits
  up to routing end well (`CompletionGuarantees.RefusedRequestIsLostExactly`). So every session that did not complete
  loses the requests refused while it is being ended (`CompletionGuarantees.OtherExitsLoseTheRequest`); an
  instance is `CompletionGuarantees.RequestCanBeLost`.
- `listOpenDescendantRuns` ends if and only if the queried run is not on a parent cycle
  (`ApprovalLineage.ListOpenDescendantRuns`, `ApprovalLineage.CycleNeverEnds`, instance
  `ApprovalLineage.OwnParentNeverEnds`).
- A task can run once more than `maxTaskRetries` allows only if that budget is zero and the task is a review whose
  verdict is malformed (`TaskLifecycle.RunsAreBounded`); and then every such review that was never run or charged,
  and that an evaluation leaves dispatchable, can (`TaskLifecycle.ReviewOutrunsBudgetOfZero`).
- A cost computed from tokens need not reach the price of the largest report: a report that adds no tokens
  adds no cost once any is on record. The final cost is the largest one that counts: reported, or computed by a report
  that adds tokens or meets no cost on record (`SessionCost.CostIsTheLargestThatCounts`;
  `SessionCost.ComputedCostIsMaximal` has the exact condition for a single report,
  `SessionCost.ComputedCostCanFallShort` an instance).
- `canonicalize` and `stableStringify` write the same text if and only if in every object the integer-like keys,
  sorted as strings, come first and in numeric order (`CanonicalJson.TextsAgreeExactly`; the keys 2 and 10 are an
  instance, `CanonicalJson.TextsCanDiffer`). They always agree on which values are the same
  (`CanonicalJson.CanonicalTextDecides`).
- A comment in `packages/core/src/dispatcher-stalled-retry.ts:78-79` says that only ready tasks are
  redispatched; the query in `packages/core/src/repos/task.ts:113` also selects blocked blind reviews. The model
  follows the query; the guarantee that a quarantined task is never run again holds regardless.

## Model

| member | source | states |
|---|---|---|
| TaskDag.StableIsLocal | packages/core/src/dag.ts:156-193 | whether a task would change is decided by its own status and those of its dependencies alone |
| TaskDag.StepStabilizes | packages/core/src/dag.ts:37-50 | a task that does not depend on itself is stable right after its own turn, although revival makes the rules non-monotone |
| TaskDag.SweepKeepsPrefix | packages/core/src/dag.ts:37-50 | once the first k tasks of a topological order are stable, no pass changes them, and the pass makes the next one stable |
| TaskDag.PassesSettle | packages/core/src/dag.ts:33-51 | on an acyclic graph of n tasks, n passes leave no task that would change, for every scan order, starting table, blind-review set and run record |
| TaskDag.SettledIsEvaluate | packages/core/src/dag.ts:34-51 | wherever the passes first settle, that table is the result, so stopping at the first pass without a change loses nothing |
| TaskDag.EvaluateIsIdempotent | packages/core/src/dag.ts:27-55 | a second evaluation changes nothing and reports no newly ready task |
| TaskDag.DAGEvaluator.EvaluateTaskDAG | packages/core/src/dag.ts:27-55 | ends, at a settled table, whenever some pass settles it, and within n + 1 passes on an acyclic graph; the returned list holds exactly the tasks that became ready, each once; the emitted events, each a real change from its recorded origin, replay the old table into the new one |
| TaskDagSolution.SolutionIsUnique | packages/core/src/dag.ts:156-181 | the recursive definition of the final statuses over the frozen tasks has at most one solution on an acyclic graph |
| TaskDagSolution.EvaluateIsTheSolution | packages/core/src/dag.ts:27-55 | the evaluation yields that solution: failed if a dependency fails, ready if all are done, else blocked |
| TaskDagSolution.ScanOrderIsIrrelevant | packages/core/src/dag.ts:28-51 | a simple sufficient condition, exact in TaskDagOrder: when no blind review waits and no pending or blocked task has a run, every permutation of the task list gives the same result |
| TaskDagSolution.EvaluateNeverDeadlocks | packages/core/src/dag.ts:33-51 | in a closed acyclic graph without operator blocks, if something is not done then something is ready, active or failed |
| TaskDagSolution.RingIsCyclic | packages/core/src/dag.ts:33-51 | the counterexample graph really is cyclic |
| TaskDagSolution.RingNeverSettles | packages/core/src/dag.ts:34-51 | the smallest instance of a chordless ring: on three tasks the table returns to its start every second pass |
| TaskDagTermination.PassRotates | packages/core/src/dag.ts:37-50 | scanned in its own order, one pass rotates the statuses of a chordless ring by one task, so two of them circulate for ever |
| TaskDagTermination.RingNeverEnds | packages/core/src/dag.ts:34-51 | for every chordless ring of three or more tasks there are a scan order and a table on which no pass is the last |
| TaskDagTermination.MoverGoesBothWays | packages/core/src/dag.ts:183-193 | on a run that comes back to its start, a task that changes at all fails again and again and recovers again and again |
| TaskDagTermination.NoPairOfMovers | packages/core/src/dag.ts:189-192 | two tasks that depend on each other cannot both keep changing: a failed one takes the other down before its own next turn |
| TaskDagTermination.RunEnds | packages/core/src/dag.ts:34-51 | without a chordless ring every run ends, because what keeps changing contains a shortest cycle, and that is such a ring |
| TaskDagTermination.LoopEndsExactly | packages/core/src/dag.ts:33-51 | the loop ends for every scan order, table, set of blind reviews and run records if and only if the graph has no chordless ring of three or more tasks |
| TaskDagTermination.AcyclicHasNoRing | packages/core/src/dag.ts:33-51 | an acyclic graph has no chordless ring, so the exact condition for termination covers the graphs that validation accepts |
| TaskDagSolution.RunsMakeScanOrderMatter | packages/core/src/dag.ts:189 | with a blocked task that already has a run, two scan orders give different results |
| TaskDagSolution.BlindReviewMakesScanOrderMatter | packages/core/src/dag.ts:168-172 | with a blind review that waits on a task, two scan orders give different results |
| TaskDagOrder.IntendedTable | packages/core/src/dag.ts:156-193 | the recursive definition of the final statuses, blind reviews and runs included, is solved by one pass in topological order, and that is the evaluation with that order |
| TaskDagOrder.StepKeepsBound | packages/core/src/dag.ts:37-50 | under the conditions every turn of every order keeps each task between what can never fail and what can never recover, fails only what can fail again, and lets a task keep only what topological order gives it |
| TaskDagOrder.EveryOrderIsIntended | packages/core/src/dag.ts:27-55 | under the conditions, the one on revived reviews that later failures could release included, every order computes the table of the topological order |
| TaskDagOrder.RunKeepsPassingFailure | packages/core/src/dag.ts:189 | for a pending or blocked task with a run that failure can reach there is an order in which it stays failed |
| TaskDagOrder.ReviewKeepsPassingRelease | packages/core/src/dag.ts:168-172 | for a blind review whose dependencies are done or can fail there is an order in which it stays ready |
| TaskDagOrder.ReviewKeepsRevival | packages/core/src/dag.ts:188-192 | for a failed blind review without a run that is not doomed there is an order in which it is revived for good |
| TaskDagOrder.ReviewKeepsLateRelease | packages/core/src/dag.ts:168-192 | for a failed blind review that can be revived, none of whose dependencies started failed, and each of whose dependencies is done or can fail again, there is an order that revives it, then fails those dependencies, and releases it for good |
| TaskDagOrder.ConditionsAreNeeded | packages/core/src/dag.ts:28-51 | if every permutation gives the same result, the conditions hold, the last one unless a review is left undecided |
| TaskDagOrder.OnlyRunsMatter | packages/core/src/dag.ts:28-51 | where no blind review waits, every permutation gives the same result if and only if every pending or blocked task with a run that a failure can reach fails in topological order, too |
| TaskDagOrder.ScanOrderIsIrrelevantExactly | packages/core/src/dag.ts:28-51 | with waiting blind reviews, every permutation gives the same result if and only if runs keep only real failures, reviews are released only by real ends, and revived reviews neither fail nor are released by later failures unless topological order does so too, provided no review is left undecided |
| TaskDagOrder.UndecidedCanBeIrrelevant | packages/core/src/dag.ts:28-51 | a table with an undecided review on which every order gives the same result although the last condition fails |
| CycleSearch.Enter | packages/core/src/dag-cycle.ts:19-21 | pushing an unvisited dependency keeps the search invariant |
| CycleSearch.StepDown | packages/core/src/dag-cycle.ts:23-34 | a dependency of the task on top continues the path, closes it, or is finished |
| CycleSearch.Leave | packages/core/src/dag-cycle.ts:36-38 | popping a task whose dependencies are all finished keeps the search invariant |
| CycleSearch.CycleFinder.constructor | packages/core/src/dag-cycle.ts:14-16 | the search starts with nothing visited and an empty path |
| CycleSearch.CycleFinder.Walk | packages/core/src/dag-cycle.ts:18-39 | returns a simple cycle, or finishes the task and restores the path, never unvisiting anything |
| CycleSearch.IndexOf | packages/core/src/dag-cycle.ts:31 | the first position of the task on the path |
| CycleSearch.FindTaskCycle | packages/core/src/dag-cycle.ts:10-48 | a simple cycle whenever the restricted graph has a cycle, and the list of remaining tasks exactly when it has none |
| DagValidation.CollectOne | packages/core/src/dag.ts:115-117 | one push keeps the outgoing lists equal to the transpose of the part read so far, repeats and foreign tasks included |
| DagValidation.Transpose | packages/core/src/dag.ts:106-118 | the outgoing lists are the transpose of the dependency lists as multisets, and every indegree is the length of the dependency list |
| DagValidation.TasksWithout | packages/core/src/dag.ts:120 | the queue starts as exactly the tasks of indegree zero, each once |
| DagValidation.VisitOne | packages/core/src/dag.ts:129-130 | visiting a task leaves each indegree too high by exactly its entries in the outgoing list |
| DagValidation.Release | packages/core/src/dag.ts:130-136 | the decrements restore the count of unmet dependencies, and exactly the tasks that reach zero are queued, each once |
| DagValidation.LeftoverHasCycle | packages/core/src/dag.ts:139-144 | in a closed graph the tasks left over contain a cycle |
| DagValidation.CyclesAreLeftOver | packages/core/src/dag.ts:143-144 | every cycle of the graph lies among the tasks left over, so searching only those misses none |
| DagValidation.ValidateDAG | packages/core/src/dag.ts:102-145 | valid if and only if the graph is closed and acyclic, and then the visited list is a topological order; when invalid, a genuine simple cycle if there is one, else exactly the tasks never visited |
| TaskLifecycle.PassesTouch | packages/core/src/dag.ts:183-193 | an evaluation leaves ready, active, done and already run failed tasks alone, and readies a normal task only behind dependencies that were done before |
| TaskLifecycle.AfterDispatchKeepsInv | packages/core/src/dispatcher-spawn.ts:38-184 | every way a dispatch can end keeps the history invariant |
| TaskLifecycle.RetryOrFailKeepsInv | packages/core/src/dispatcher-stalled-retry.ts:51-101 | the stall writes keep the history invariant: a retry is charged before the task is ready again |
| TaskLifecycle.FailOverKeepsInv | packages/core/src/dispatcher-recovery.ts:131-173 | failover keeps the history invariant: the fallback's run is charged to the same budget |
| TaskLifecycle.FailoverEffects | packages/core/src/dispatcher-recovery.ts:131-173 | field by field: a failover freezes the run; it dispatches the fallback, charging one retry, exactly when agent and task are known, the budget is not exhausted and a fallback matches, and then the new run, its liveness and the status are those of the way the dispatch ends; an exhausted budget charges one and starts nothing; otherwise nothing is charged; other tasks stay as they are |
| TaskLifecycle.DispatchEffects | packages/core/src/dispatcher-cycle.ts:52-82 | field by field: a started dispatch gives one more run, live, and an active task; a failed spawn one more run that is not live; a prerequisite block a blocked task and no run; any other end no run, and a failed task only without a runtime agent |
| TaskLifecycle.StallEffects | packages/core/src/dispatcher-stalled-retry.ts:51-101 | field by field: a heartbeat stall fails the task uncharged; a crash within the budget charges one and readies it; an exhausted budget charges one and fails it, or leaves it active when deterministic; the graph is then settled and of other tasks only the status may change |
| TaskLifecycle.RunEndEffects | packages/core/src/dag.ts:83-85 | a run that ends is live no longer, and shipped if it succeeded |
| TaskLifecycle.RunCompleteEffects | packages/core/src/dag.ts:79-91 | a shipped latest run makes its task done, any other failed, and the graph is settled, so what depends on it is resolved |
| TaskLifecycle.MalformedEffects | packages/core/src/post-completion-router-task-completion.ts:194-212 | a malformed review is readied and charged once, its run neither live nor shipped; charged before, nothing changes |
| TaskLifecycle.ReadyListedExactly | packages/core/src/repos/task.ts:110-140 | a normal task is listed if and only if it is ready behind done dependencies without a live run; a blind review also while blocked on dependencies that are all done or failed |
| TaskLifecycle.IgnoredEvents | packages/core/src/dispatcher-stalled-retry.ts:41-49 | events that do not find the task where they need it change nothing |
| TaskLifecycle.CrashesFollowSchedule | packages/core/src/dispatcher-stalled-retry.ts:92-96 | in any history in which only crashes charge the task, the delays of its retried crashes are the entries of the schedule from the first uncharged one on, the last one repeated past the end |
| TaskLifecycle.RunCompleteKeepsInv | packages/core/src/dag.ts:79-91 | the verdict of the latest run keeps the history invariant |
| TaskLifecycle.ReadyForDispatch | packages/core/src/repos/task.ts:106-149 | a task that the ready query selects has budget left, and a normal one has all its dependencies done |
| TaskLifecycle.NextKeepsInv | packages/core/src/dispatcher-cycle.ts:48-83 | every step of a history keeps the invariant |
| TaskLifecycle.NothingRunsEarly | packages/core/src/dag.ts:156-181 | in every history from pending or blocked tasks, no normal task is ready, active or done, or was ever run, before all its dependencies are done |
| TaskLifecycle.RunsAreBounded | packages/core/src/dispatcher-stalled-retry.ts:59-101 | in every history a task runs at most once more than `maxTaskRetries`, whatever mix of crash retries, transient waits, failovers and malformed reviews; a review under a budget of zero may run once more |
| TaskLifecycle.ReviewOutrunsBudgetOfZero | packages/core/src/post-completion-router-task-completion.ts:194-212 | under a budget of zero every review never run or charged, and dispatchable after an evaluation, has a continuation in which it runs twice |
| TaskLifecycle.RetryReviewKeepsInv | packages/core/src/post-completion-router-task-completion.ts:194-212 | a malformed review is charged like any other retry |
| TaskLifecycle.DispatchKeepsInv | packages/core/src/dispatcher-cycle.ts:48-82 | a task taken from the list the cycle read earlier is still safe to dispatch, whatever happened since |
| TaskLifecycle.ExhaustionEnds | packages/core/src/dispatcher-stalled-retry.ts:51-90 | a heartbeat stall or an exhausted budget ends the task: failed, or left active under a quarantined run when deterministic |
| TaskLifecycle.RetryIsDispatchable | packages/core/src/dispatcher-stalled-retry.ts:92-101 | while the budget lasts, a crash of a normal task charges one retry and leaves it a task that the ready query selects |
| TaskLifecycle.EndedForGood | packages/core/src/dag.ts:188-189 | no later history makes an ended task ready or gives it another run, unless the router retries it as a malformed review, which it grants only to a task never charged a retry |
| TaskLifecycle.TaskStore.EvaluateTaskDAG | packages/core/src/dag.ts:27-55 | the step Settle of the histories is what the evaluator does to the tables |
| TaskLifecycle.TaskStore.WriteRetry | packages/core/src/dispatcher-stalled-retry.ts:51-99 | the table writes of a stall; the next attempt is after the override if given, else after the schedule's entry at the number of retries charged before, else after its last entry, else after 60 s; an exhausted budget clears it, a heartbeat leaves it |
| TaskLifecycle.TaskStore.RetryOrFailStalledTask | packages/core/src/dispatcher-stalled-retry.ts:35-113 | is exactly the stall step of the histories, with that time of the next attempt; an unknown task changes nothing |
| TaskLifecycle.TaskStore.Dispatch | packages/core/src/dispatcher-spawn.ts:38-184 | what a dispatch leaves in the tables, for each point it can reach |
| TaskLifecycle.TaskStore.FailOverOrFreeze | packages/core/src/dispatcher-recovery.ts:109-173 | is exactly the failover step of the histories: nothing is charged for an unknown agent or task or without a fallback, and the retry time is cleared exactly when a retry is charged |
| TaskLifecycle.TaskStore.RetryMalformedReview | packages/core/src/post-completion-router-task-completion.ts:194-212 | is exactly the malformed-review step, granted exactly to a task never charged a retry |
| TaskLifecycle.TaskStore.OnRunComplete | packages/core/src/dag.ts:79-96 | is exactly the run-complete step of the histories |
| CompletionProtocol.HandleSessionEndKeepsInv | packages/core/src/dispatcher-session.ts:79-125 | the guarded entry keeps the protocol invariant, on every path to its first await or its end |
| CompletionProtocol.ReopenKeepsInv | packages/core/src/dispatcher-completion-fallback.ts:15-22 | scheduling or clearing a timer is invisible to the invariant, and taking a run that is not routed out of `handledSessionEnds` keeps it |
| CompletionProtocol.ResumeSessionEndKeepsInv | packages/core/src/dispatcher-session.ts:123-166 | every continuation of a session-end handler keeps the invariant, whether its await resolves or rejects |
| CompletionProtocol.RouteStoredKeepsInv | packages/core/src/dispatcher-stored-completion.ts:16-19 | the second routing entry keeps the invariant |
| CompletionProtocol.ResumeStoredKeepsInv | packages/core/src/dispatcher-stored-completion.ts:21-29 | its continuation keeps the invariant, routed or not |
| CompletionProtocol.OneHandlerAtATime | packages/core/src/dispatcher-session.ts:80-85 | in every interleaving at most one handler per run is between guard and finally, and `finishingRuns` is exactly the runs that have one |
| CompletionProtocol.RoutedAtMostOnce | packages/core/src/dispatcher-session.ts:148-158 | in every interleaving routing succeeds at most once per run, and a routed run that is not finishing is handled |
| CompletionProtocol.RoutedIsFinal | packages/core/src/dispatcher-session.ts:57-58 | once a run is routed and its handler gone, it stays routed, handled and not finishing whatever happens later |
| CompletionProtocol.ReleasedExactlyOnce | packages/core/src/dispatcher-completion-release.ts:16-79 | every finished handler that had an active session has left the entry removed, issued the lease release once and the session release once |
| CompletionGuarantees.OnlyCompletionsAreRouted | packages/core/src/dispatcher-session.ts:107-154 | in every interleaving only a session that exited as completed is routed, and a handler that has scheduled a resume exited by crash or timeout, never routes and never cleans up; when it schedules one is stated by SessionFollowsScript |
| CompletionGuarantees.StartsExactly | packages/core/src/dispatcher-session.ts:49-101 | an event starts a session-end handler if and only if nobody is finishing the run and it is not handled (for a harness) or not routed (for a request, or a timer that is pending for an open run); a refused request is kept with a timer; a started handler acts on the ceiling's exit, else on completed if that was requested, else on the reported one |
| CompletionGuarantees.SessionFollowsScript | packages/core/src/dispatcher-session.ts:79-166 | from the starting event, what it read of the run and how its awaits end, to where the handler stands after every later history: limits first for a failed or limited session of an open run, the dirty check, then release, routing and cleanup for a completed session, nothing for one that resumes, cleanup for any other; it stops at the first await that ends badly |
| CompletionGuarantees.SessionSettlesRun | packages/core/src/dispatcher-session.ts:153-165 | unless somebody asks meanwhile, the run is being finished exactly while the handler is in an await, and is handled afterwards if and only if all awaits ended well, or only the early release failed and that could be recorded |
| CompletionGuarantees.ResumedIsKept | packages/core/src/dispatcher-session.ts:107-153 | a crashed or timed-out session of an open run before its last stage that can resume is never routed and its worktrees are never cleaned up, after any later history, suspended or ended |
| CompletionGuarantees.StandsInNextAwait | packages/core/src/dispatcher-session.ts:103-158 | while its awaits end well a handler is in the next one of its script; so a failed or limited session of an open run first asks for limits, and one that neither completes nor resumes reaches the cleanup |
| CompletionGuarantees.SessionsComeAndGo | packages/core/src/dispatcher-spawn.ts:166-171 | a run's session is registered once and may be removed from outside, and nothing else changes |
| CompletionGuarantees.OnlyOwnEntry | packages/core/src/dispatcher-completion-release.ts:61-69 | an await of a handler that ends removes no active entry but that of its own run, only if the handler found one when it started, and only once |
| CompletionGuarantees.StoredStartsExactly | packages/core/src/dispatcher-stored-completion.ts:16-29 | stored-completion routing takes a run if and only if it is open, not routed and not being finished, and when it resolves the run is routed and handled |
| CompletionGuarantees.ReleasedBeforeRouting | packages/core/src/dispatcher-session.ts:131-148 | routing never starts while the session is held: entry removed, lease and session released once each |
| CompletionGuarantees.ExitStays | packages/core/src/dispatcher-session.ts:82-101 | the exit reason a handler acts on never changes |
| CompletionGuarantees.EnterTakesOver | packages/core/src/dispatcher-session.ts:80-101 | past the guard a handler clears the timer and acts as the ceiling says, else as completed if that was requested, else as its session reported |
| CompletionGuarantees.StepEndsWait | packages/core/src/dispatcher-completion-fallback.ts:15-36 | one step ends the wait for the timer if and only if a handler takes the run over and acts as requested, or the timer fires while the run is routed, closed or being finished |
| CompletionGuarantees.RequestWaits | packages/core/src/dispatcher-completion-fallback.ts:15-36 | in every interleaving a requested completion waits until one of these two happens, and such a handler acts as requested from then on |
| CompletionGuarantees.RequestCanBeLost | packages/core/src/dispatcher-completion-fallback.ts:16-23 | a history in which routing outlasts the timer of a second request and then fails: no timer, no handler, not routed, not handled |
| CompletionGuarantees.RefusedRequestHasHolder | packages/core/src/dispatcher-session.ts:80 | a timer refused because the run is being finished leaves the request to a session-end handler or to the routing of a stored completion |
| CompletionGuarantees.HoldersFate | packages/core/src/dispatcher-session.ts:123-166 | once the run is let go, it is routed exactly if the session-end handler that held it had routed it or will by how its remaining awaits end, whatever other handlers do meanwhile |
| CompletionGuarantees.RefusedRequestIsLostExactly | packages/core/src/dispatcher-session.ts:80-166 | when the timer was refused while a session-end handler holds the run and nobody asks again, the request is lost if and only if the run is let go, that handler had not routed it, and it is not so that its session completed and its awaits up to routing all end well |
| CompletionGuarantees.OtherExitsLoseTheRequest | packages/core/src/dispatcher-session.ts:80-166 | a session with any exit other than completed loses every request refused while it is being ended |
| CompletionGuarantees.RefusedByStoredIsLostExactly | packages/core/src/dispatcher-stored-completion.ts:16-29 | while the routing of a stored completion holds the run, a refused request is lost if and only if that routing rejects |
| CompletionGuarantees.TimerActs | packages/core/src/dispatcher-completion-fallback.ts:16-24 | the timer hands the run to a new handler exactly when it is not routed, still open and nobody is finishing it |
| CompletionProtocol.SessionDispatcher.ScheduleFallback | packages/core/src/dispatcher-completion-fallback.ts:15-26 | adds a timer only for a run that is neither routed nor already waiting |
| CompletionProtocol.SessionDispatcher.EndSession | packages/core/src/dispatcher-session.ts:49-60 | is exactly the `endSession` step |
| CompletionProtocol.SessionDispatcher.FireFallback | packages/core/src/dispatcher-completion-fallback.ts:16-24 | is exactly the timer step |
| CompletionProtocol.SessionDispatcher.HandleEnd | packages/core/src/dispatcher-session.ts:79-124 | the first segment of `handleSessionEnd`, guard, exit reason and branches included, as the step function has it; SessionFollowsScript says what that is |
| CompletionProtocol.SessionDispatcher.ReadRunAgain | packages/core/src/dispatcher-session.ts:123-125 | goes on to the dirty check, or to the finally block when the run is gone |
| CompletionProtocol.SessionDispatcher.FinallyBlock | packages/core/src/dispatcher-session.ts:155-165 | the finally block up to its await or its end, as the step function has it |
| CompletionProtocol.SessionDispatcher.ForgetActive | packages/core/src/dispatcher-completion-release.ts:61-69 | removes the active entry unless this handler already did |
| CompletionProtocol.SessionDispatcher.RouteStoredCompletion | packages/core/src/dispatcher-stored-completion.ts:16-22 | is exactly the stored-completion step |
| CompletionProtocol.SessionDispatcher.FinishStored | packages/core/src/dispatcher-stored-completion.ts:21-29 | is exactly the continuation of stored-completion routing |
| CompletionProtocol.SessionDispatcher.AfterRelease | packages/core/src/dispatcher-completion-release.ts:28-45 | is exactly the continuation of the release await: success, failure or timeout, and a failure that cannot be recorded |
| CompletionProtocol.SessionDispatcher.AfterRouting | packages/core/src/dispatcher-session.ts:148-165 | is exactly the continuation of the routing await |
| DispatchCycle.Candidates | packages/core/src/dispatcher-cycle.ts:192-196 | the candidates are exactly the agents of the role that are neither busy nor unhealthy |
| DispatchCycle.FirstIsBest | packages/core/src/dispatcher-cycle.ts:198-203 | the head after the stable sort: no candidate is preferred to it, and it is preferred to every earlier one |
| DispatchCycle.MatchAgentIsBest | packages/core/src/dispatcher-cycle.ts:181-204 | an unassigned task gets nobody exactly when nobody of its roster is available, and otherwise the first available agent of the best cost tier: the dearest for a complex task, else the cheapest |
| DispatchCycle.MatchIsExact | packages/core/src/dispatcher-cycle.ts:163-204 | nobody is matched if and only if the agent of the run to resume is busy, or a fresh start finds neither the assigned agent nor, unassigned, anyone of the roster available; otherwise the agent of the run to resume if it is available, else exactly the assigned agent, else the best available one; a fresh start is one without a run to resume or with its agent idle but unhealthy |
| DispatchCycle.NextKeepsInv | packages/core/src/dispatcher-cycle.ts:30-86 | every step of the cycle, sessions ending between awaits included, keeps slots, capacity and the idle matched agent |
| DispatchCycle.CapacityHolds | packages/core/src/dispatcher-cycle.ts:15-86 | in every history of polling cycles the active sessions never exceed `maxConcurrentRuns` and no two share an agent |
| DispatchCycle.NoSlotIsWasted | packages/core/src/dispatcher-cycle.ts:48-83 | when no session ends meanwhile, the loop fills every slot or has dealt with every ready task: started, failed to dispatch, in backoff, contested, or with nobody available for it even now; every start is counted |
| DispatchCycle.StartsOnlyStartable | packages/core/src/dispatcher-cycle.ts:48-76 | every session the loop adds was started for a task that is neither in backoff nor contested, with a healthy agent that the task is assigned to, has in its roster, or resumes with |
| DispatchCycle.CycleIsARun | packages/core/src/dispatcher-cycle.ts:30-86 | the loop, whatever its awaits bring, is a run of the steps, so it stays within the limits |
| DispatchCycle.CycleRunner.Cycle | packages/core/src/dispatcher-cycle.ts:30-86 | the imperative loop leaves the sessions and the count of that loop function; disabled or full it starts nothing, otherwise it starts only startable tasks and, when no session ends meanwhile, fills every slot or has dealt with every task |
| ApprovalLineage.GroupByParent | packages/core/src/approval-eligibility.ts:16-22 | the grouping gives, for every id, its children in table order |
| ApprovalLineage.ChildrenAreNew | packages/core/src/approval-eligibility.ts:24-30 | with one parent per run, the children about to be pushed were never on the stack before |
| ApprovalLineage.PopOne | packages/core/src/approval-eligibility.ts:26-30 | one turn keeps popped and waiting runs distinct, and equal to the children of the queried and of the popped runs |
| ApprovalLineage.EveryDescendantPopped | packages/core/src/approval-eligibility.ts:26-30 | an empty stack means every descendant was popped |
| ApprovalLineage.ListOpenDescendantRuns | packages/core/src/approval-eligibility.ts:12-32 | terminates and returns each open proper descendant exactly once, even if the table holds other parent cycles |
| ApprovalLineage.CycleNeverEnds | packages/core/src/approval-eligibility.ts:26-30 | on a parent cycle the stack is never empty, after any number of turns |
| ApprovalLineage.OwnParentNeverEnds | packages/core/src/approval-eligibility.ts:26-30 | a run recorded as its own parent is on a parent cycle, so the search from it never ends, whatever the other runs are |
| ApprovalLineage.IsActionableApprovalRun | packages/core/src/approval-eligibility.ts:41-49 | actionable exactly when the run waits for approval at the ship stage, is not terminal and has no open descendant |
| EventStream.SplitAppend | packages/cli/src/event-stream.ts:65-67 | splitting a longer text only continues the last line |
| EventStream.LinesAppend | packages/cli/src/event-stream.ts:69-92 | reading lines composes: the accumulators carry over and the events concatenate |
| EventStream.BlockIsRead | packages/cli/src/event-stream.ts:69-91 | after a block of lines the accumulators hold the id and the name given last and all data values in order, each the text behind its field name, colon and white space; comments and unknown fields give nothing |
| EventStream.BlankLineEmits | packages/cli/src/event-stream.ts:43-57 | a blank line emits the event so described, called message when unnamed, its data lines joined, and clears the accumulators; with neither name nor data it emits nothing and keeps the id |
| EventStream.ReadMore | packages/cli/src/event-stream.ts:65-92 | one more chunk takes the parser from the state after the text so far to the state after the longer text |
| EventStream.ReadLines | packages/cli/src/event-stream.ts:69-92 | the inner loop computes the composed reading of its lines |
| EventStream.ParseEventStream | packages/cli/src/event-stream.ts:37-109 | the events depend only on the concatenated text, not on how it was cut into chunks |
| EventStream.FinalNewline | packages/cli/src/event-stream.ts:95-109 | a missing or added final newline changes nothing |
| EventStream.SplitJoin | packages/cli/src/event-stream.ts:50 | joining data lines loses none of them |
| EventStream.PrintThenParse | packages/cli/src/event-stream.ts:43-92 | any list of well-formed events printed in the field format, with either line ending, is given back |
| EventStream.ParseThenPrint | packages/cli/src/event-stream.ts:37-109 | whatever any text yields is well-formed and survives printing and parsing again |
| CanonicalJson.SortIsCanonical | packages/core/src/evidence-content-hash.ts:34 | sorting the keys forgets the order the members came in |
| CanonicalJson.LexMeans | packages/core/src/evidence-content-hash.ts:34 | keys are compared by their first differing code unit, a proper prefix coming first |
| CanonicalJson.IndexKeyMeans | packages/core/src/evidence-content-hash.ts:34 | the keys that a new object enumerates first are exactly the decimal notations of the numbers up to 2^32 - 2 |
| CanonicalJson.IndexOrderIsNumeric | packages/core/src/evidence-content-hash.ts:34 | and it enumerates them in numeric order |
| CanonicalJson.ReadQuoted | packages/core/src/dispatcher-preflight.ts:203 | a quoted string, escapes and surrogates included, reads back as itself whatever follows |
| CanonicalJson.EscapesWhatMustBe | packages/core/src/dispatcher-preflight.ts:203 | only control characters, quotes, backslashes and lone surrogates are escaped, in the short form where there is one, else in lower-case hexadecimal |
| CanonicalJson.ReadEncoded | packages/core/src/evidence-content-hash.ts:27 | a reader of RFC 8259 gives back every encoded value and what follows it |
| CanonicalJson.ValueIsReadable | packages/core/src/evidence-content-hash.ts:27 | an encoded value followed by a delimiter determines the value and what follows |
| CanonicalJson.EncodeIsInjective | packages/core/src/evidence-content-hash.ts:27 | different ordered values have different texts |
| CanonicalJson.StableIsNormal | packages/core/src/dispatcher-preflight.ts:199-206 | the direct encoder's text is the encoding of the value with sorted keys |
| CanonicalJson.OrderedIsCanonical | packages/core/src/evidence-content-hash.ts:34 | the member order, through a new object or not, is the same exactly for the same set of members |
| CanonicalJson.EquivalentIsNormal | packages/core/src/evidence-content-hash.ts:30-37 | sorted forms coincide exactly for values equal up to key order at every depth |
| CanonicalJson.CanonicalTextDecides | packages/core/src/evidence-content-hash.ts:25-37 | for both encoders, equal text if and only if equal up to key order at every depth |
| CanonicalJson.EnumeratedIsPlain | packages/core/src/evidence-content-hash.ts:34 | a new object keeps plainly sorted members in place exactly when the integer-like keys come first and in numeric order |
| CanonicalJson.TextsAgreeExactly | packages/core/src/dispatcher-preflight.ts:199-206 | the two encoders write the same text if and only if that holds of every object at every depth |
| CanonicalJson.TextsCanDiffer | packages/core/src/evidence-content-hash.ts:34 | an object with the keys 2 and 10 has two different texts |
| CanonicalJson.EvidenceKeyDecides | packages/core/src/evidence-content-hash.ts:9-11 | two evidence records share their hashed text exactly when they have the same type and equivalent payloads |
| SessionCost.RecordRaises | packages/core/src/dispatcher-session-cost.ts:215-221 | recording an absolute value raises a total to baseline plus that value, and never lowers it |
| SessionCost.OneReport | packages/core/src/dispatcher-session-cost.ts:132-213 | scanner and runtime paths alike, tokens and reported cost are recorded as what is not yet recorded |
| SessionCost.CountedFromStart | packages/core/src/dispatcher-session-cost.ts:196-221 | each delta is what the report tells of beyond the recorded start of the session, or beyond the run's current total when none or a negative one was recorded; input is fresh, cache-read and cache-written tokens together |
| SessionCost.WholeReportWithoutStart | packages/core/src/dispatcher-session-cost.ts:196-221 | so without a recorded start the whole report is added |
| SessionCost.SourceIsExact | packages/core/src/dispatcher-session-cost.ts:132-213 | the evidence names the scanner or the runtime exactly when the cost is reported there, the computation when it adds something, else nothing |
| SessionCost.ReportsLeaveMaxima | packages/core/src/dispatcher-session-cost.ts:48-128 | any sequence of reports, repeated or out of order, leaves each total at the larger of what it was and baseline plus the largest report; for the cost, reported and computed mixed, plus the largest that counts |
| SessionCost.CostIsTheLargestThatCounts | packages/core/src/dispatcher-session-cost.ts:132-231 | over any sequence that mixes reported and computed costs the final cost is the larger of what it was and baseline plus the largest cost that counts: reported, or computed by a report that adds tokens over all earlier ones or meets no cost of the session on record |
| SessionCost.ComputedCostIsMaximal | packages/core/src/dispatcher-session-cost.ts:223-231 | a computed cost obeys the same law exactly when the report is not a dearer one that adds no tokens |
| SessionCost.ComputedCostCanFallShort | packages/core/src/dispatcher-session-cost.ts:151-153 | an instance where the computed price is twice what ends up recorded |
| SessionCost.RunRow.RecordSessionCost | packages/core/src/dispatcher-session-cost.ts:48-128 | with no write in between, the stored cost, the cost checked against the ceiling and the cost in the evidence are the same, on every path |
| CodexScanner.PriceOfSum | packages/core/src/cost-scanner.ts:371-373 | pricing adds up over counters whose cached input lies within their input |
| CodexScanner.PriceOfOneKind | packages/core/src/cost-scanner.ts:371-373 | uncached input, cached input and output are each priced at their own rate; with additivity this fixes every price |
| CodexScanner.CreditClamps | packages/core/src/cost-scanner.ts:353-365 | a credit is the delta itself, its cached part moved to the nearest end of the input delta |
| CodexScanner.ModelIsNamedLast | packages/core/src/cost-scanner.ts:324-328 | the model in force is the one that the last turn context with a model names, and none before the first |
| CodexScanner.ScanTells | packages/core/src/cost-scanner.ts:304-380 | for every log and key: that key holds exactly the credits made while its model was in force, exactly the credited keys are listed, the cost is each credit at its model's rates at its time, and it is partial exactly when credited tokens had no rates |
| CodexScanner.SumsOfUpdate | packages/core/src/cost-scanner.ts:361-366 | crediting one model raises the sum over the models by the credit, and their price by its price |
| CodexScanner.StepAccounts | packages/core/src/cost-scanner.ts:352-378 | one log entry keeps the accumulators equal to the credited deltas |
| CodexScanner.ScanAccounts | packages/core/src/cost-scanner.ts:304-380 | for any log, cached stays within input for every model and the models' totals sum to the credited deltas, resets skipped |
| CodexScanner.SmoothLogsCreditEverything | packages/core/src/cost-scanner.ts:352-366 | when counters never drop and each cached delta lies in its input delta, the totals are the last cumulative counters, whatever the model switches |
| CodexScanner.EventCostIsTotalCost | packages/core/src/cost-scanner.ts:367-374 | with rates fixed in time the event-by-event cost is the per-model totals priced once, and it is partial exactly when a model without rates used tokens |
| CodexScanner.CloseModels | packages/core/src/cost-scanner.ts:383-390 | the closing clamp never bites: net plus cached input is the sum of the inputs |
| CodexScanner.ParseCodexSession | packages/core/src/cost-scanner.ts:282-406 | a result exactly when a session is named and a counter seen; the first name; net plus cached input, cached and output equal to the credited deltas, none negative; cost and measured flag as the log gives them event by event under the model in force |
| AgentHealth.PruneIsInvisible | packages/core/src/dispatcher-agent-health.ts:52-53 | pruning now changes no window asked for later |
| AgentHealth.AppendInWindow | packages/core/src/dispatcher-agent-health.ts:52-53 | a failure counts while it is at most the window old |
| AgentHealth.UnhealthyAfter | packages/core/src/dispatcher-base.ts:200-206 | one more failure makes the history unhealthy by an earlier trip or by its own |
| AgentHealth.AddRepresents | packages/core/src/dispatcher-base.ts:191-208 | the updated record answers every later question as the longer history would |
| AgentHealth.Answers | packages/core/src/dispatcher-agent-health.ts:52-80 | the pruned record holds the window of the full history and its unhealthy answer |
| AgentHealth.HealthTable.RecordAgentFailure | packages/core/src/dispatcher-base.ts:191-208 | a recoverable failure joins the agent's history and any other is ignored, the table still representing all histories |
| AgentHealth.HealthTable.CurrentState | packages/core/src/dispatcher-base.ts:217-225 | reports the window filter of the full history since the last reset, and unhealthy exactly when some failure whose cooldown runs had three in its window; asking, and deleting empty records, changes no later answer |
| AgentHealth.HealthTable.ResetAgentHealth | packages/core/src/dispatcher-base.ts:180-185 | forgets the agent's history and nobody else's |

## Left out

- Spec status (`reconcileSpecStatus`, `evaluateSpecDAG`, `nextTask`): flat rules over the task statuses.
- Events and evidence other than task status changes made by the evaluator, and accounting payloads other than source and stored cost.
- TaskDagOrder.ScanOrderIsIrrelevantExactly: exact unless a failed blind review that can be revived, but is not ready in topological order, has a dependency that started failed, while each of its dependencies is done or can fail again. For such tables the four conditions still suffice and the first three are still needed; the fourth is not always (`TaskDagOrder.UndecidedCanBeIrrelevant`), since the review's own revival needs that dependency revived first, and whether the failures left by then outlast that depends on how far they have to travel, pass by pass.
- TaskLifecycle.RunsAreBounded: histories hold no operator actions (resume, manual dispatch, pause) and none of the status writes of the post-completion router other than the retry of a malformed review: it also marks tasks of a review lineage done, failed or active (`packages/core/src/post-completion-router-task-completion.ts:19-165`). The retry of a malformed review is taken to come before the review task is done.
- TaskLifecycle.ReadyForDispatch: the spec-status, role and recorded-skip filters of the ready query, the order of its list and the wait until `retryAfter` are dropped, so the histories include more dispatches than the program makes.
- TaskLifecycle.ExhaustionEnds: whether a failure is deterministic is an input; the regular expressions behind it are not modelled.
- TaskLifecycle.TaskStore.RetryOrFailStalledTask: the checkpoint test behind its return value is an input of the completion protocol.
- CompletionProtocol.ReleasedExactlyOnce: lease release and session release are counted actions that do not throw synchronously; fencing rules are not part of this model. A run's session is registered once.
- CompletionProtocol.SessionDispatcher.HandleEnd: one method models one segment between awaits; the suspended call is a value, not a stack frame. Cost recording and dirty-worktree evidence count only as awaits that may reject.
- DispatchCycle.CapacityHolds: only the polling cycle dispatches; manual dispatch, operator resume and failover do not pass the slot check. A dispatch adds one session for the matched agent, or throws and adds none.
- DispatchCycle.CycleRunner.Cycle: what each await brings is a parameter; skip records and error lists of the result are dropped.
- EventStream.ParseEventStream: the abort signal and the UTF-8 decoder are outside; chunks are the decoded text read so far.
- CanonicalJson.CanonicalTextDecides: values are JSON values with distinct keys; undefined, functions, `toJSON` and `__proto__` keys are outside, and a number is identified with its decimal notation. SHA-256 is not modelled.
- SessionCost.ReportsLeaveMaxima: tokens and costs are reals, so rounding is not modelled.
- CodexScanner.ParseCodexSession: log lines are already decoded entries; working directory, last model and timestamps are not carried; counters are integers.
- `parseClaudeSessionFile`: it sums independent per-message usages, an easier case of the same accumulation.
- AgentHealth.HealthTable.CurrentState: the text of `unhealthyReason` and the formatted times are dropped.
- Repositories and transactions: tables are maps and sequences with unique keys.
- Git, worktrees, sandboxes, processes, harness adapters and MCP servers: nondeterministic outcomes of awaits.
- HTTP routes, commands, dashboard, settings, secrets, redaction, prompts, doctor and seeding.
