# Verified model of the heros run kernel

heros runs long goals as durable task graphs. This project models the part of it that must not go wrong while
nobody is watching, and proves what that part is for.

**The run kernel.** One goal owns a graph of tasks. Workers, people and a supervisor act on it concurrently by
claiming, renewing, completing, releasing, deciding, cancelling and saving. `Protocol` is one abstract step relation
over a goal and its task table, and beside it what the durable store's statements check. `MemoryStore` is the
in-process store, a class whose methods update maps and graphs in place; `PostgresStore` is the durable one, where each
statement or transaction is one atomic step. `Runs` is about whole runs of either, `MemoryRuns` shows that a run of the
in-process store is a run of the protocol, and `Progress` says when a goal can move. `Tasks` holds the transition table
and the theory of dependency graphs; `Dags` holds the graph object with its in-place loops: the three-colour search,
the ready and claimable sets, failure propagation, the stall test. `Plans` and `Planner` build a goal's first graph and
revise it, `Gates` says when each planned task may run, and `PlannedRuns` is about runs whose tasks all come from them.

**Around it.** `RateLimit` is the per-key token bucket in a bounded map. `TextStream` is the incremental decoder that
shows a reply while its JSON is still arriving, and `StreamCuts` says for which documents it does not matter how they
are cut. `JsonStrings` prints strings as section 7 of RFC 8259 allows and compares what is shown with the code points
printed, read back by `Utf8s` as RFC 3629 says. `QuotedPrintable` is the mail body encoder of section 6.7 of RFC 2045.
`Bits`, `Discovery` and `Evidence` are the gated one-pass index over a repository, and `Spans` says which lines it shows.
`Episodes` is the episodic memory with its lossy compression.

Workers are not modelled: they are an environment that may make any call with any arguments at any time, except that runs
save a graph only with the stored tasks kept and new ones on top. Both stores also take a graph that drops or rewrites
stored tasks; `MemoryStore.Memory.SaveDAG` and `PostgresStore.Postgres.SaveDAG` say exactly when a save is a step of the
protocol. Each call carries its own reading of the clock, `now`, which may be older or newer than that of any other call:
a worker reads the clock once, claims, runs a tool for as long as it takes, and completes with the reading it started
from. The rows another transaction has locked are a parameter of the claim.

## What the proofs found

- Postgres completes and releases without consulting the transition table, and a cancelled task keeps its lease. A worker
  that completes with a reading of the clock from before its lease ended and the goal was cancelled turns the cancelled
  task into a succeeded one: `Runs.LateCompletionRevives` is that run, from an empty store. The in-process store refuses
  the same call. A statement under a lease is a step of the protocol exactly when its outcome may follow running and the
  task is not cancelled (`Protocol.StatementIsStep`), and a run of statements is a run of the protocol exactly when all
  of them are (`Runs.LawfulRuns`). Callers secure it by naming themselves and reading the clock no earlier than the
  cancel they come after (`Runs.CarefulRunsAreLawful`).
- `Renew` looks at the lease alone, in both stores, so it can move the end of the lease a cancelled task kept. Everything
  else of a terminal task is frozen (`Runs.TerminalTaskIsFrozen`); with careful callers the whole row is
  (`Runs.CarefulTerminalRowStays`).
- `Memory.Complete` propagates only a failure. A worker that completes into cancelled leaves whatever required its task
  where no call can move it: `MemoryRuns.CancelledCompletionStrands` is that run, from an empty store. A cancel or the
  propagation of another failure may still end such a task, but nothing ever starts it (`MemoryRuns.StrandedNeverStarts`).
  `MemoryRuns.SettledUnlessLeaking` says exactly which calls leave such a leftover, `Progress.ProgressExactly` exactly
  when a goal can still move, and `PlannedRuns.PlanningNeverLeaks` that the planner never makes such a call.
- After a cancel the set of unfinished tasks is not bound to shrink: a worker that loaded the goal before the cancel may
  replan and save new tasks after it (internal/worker/worker.go:155, 376-419). `Runs.PlanningOutlivesCancel` is that run,
  in which nothing is unfinished and then something is. The set only shrinks exactly when no graph saved since has left
  an unfinished task (`Runs.UnfinishedShrinks`), and what was added is never claimed (`Runs.UnfinishedAfterCancel`).
- The loop of `Cancel` returns an error for a move its comment calls unreachable. `MemoryStore.Memory.Cancel` proves that
  it is.
- The reply stream reads the halves of a surrogate pair one by one, so a document is decoded as RFC 8259 says exactly
  when it writes no character as a pair (`JsonStrings.DocumentDecodes`). What a document shows does not depend on how
  the network cuts it, unless its first `"text"` is no key and a key with a text follows: exactly then it does
  (`StreamCuts.CutsMatterExactly`).
- The mail encoder escapes a dot at the start of a line after a hard break only. Counting soft breaks as well, lines
  never start with a dot exactly when no dot of the text falls on a full line (`QuotedPrintable.DotsAreEscaped`).
- Two tenants share knowledge claims exactly when one name continues the other behind a zero byte
  (`Episodes.TenantsAreApart`).
- Replanning derives task ids from findings. They are pairwise distinct exactly when no two assessments report the same
  axis at the same position (`Plans.DistinctUnlessClash`), which holds when each reports its own axis.
- The token bucket reads the clock outside its lock. A request that read it before a sweep and comes after it may find a
  full bucket where the sweep forgot one that had not refilled by its reading (`RateLimit.LateCallSeesSweep`), and its key
  can so get more than the ceiling (`RateLimit.LateWindow`). Sweeping is invisible in exactly the runs without such a late
  request, in whatever order the times come (`RateLimit.SweepingIsInvisible`), and there the ceiling holds
  (`RateLimit.SlidingWindow`). Callers secure it by reading no time before the sweep that forgot their key
  (`RateLimit.AfterSweepsIsLateFree`), as they do when times never run backwards (`RateLimit.InOrderIsAfterSweeps`).

## Model

| member | source | states |
|---|---|---|
| Tasks.AcyclicHasNoCycle | internal/task/task.go:189-226 | a graph with a rank that puts every task above all its dependencies has no dependency path from a task back to itself |
| Tasks.MovesByTarget | internal/task/task.go:65-81 | the transition table read backwards: from which states each state can be reached |
| Tasks.TerminalIsStuck | internal/task/task.go:52-63 | a state is terminal if and only if no move leaves it, and dead if and only if besides it is not success |
| Tasks.HitIsDoomed | internal/task/task.go:318-348 | whatever any round of propagation may block had, from the start, a path of required dependencies through unfinished tasks to a failed, blocked or cancelled one |
| Tasks.PropagatedIsSettled | internal/task/task.go:324-348 | after blocking exactly the doomed tasks no unfinished task has a dead required dependency |
| Tasks.PropagatedIsLeast | internal/task/task.go:324-348 | every way of blocking tasks that leaves nothing to propagate has blocked all the doomed ones: propagation is the least fixpoint |
| Tasks.SettledIsFixpoint | internal/task/task.go:324-348 | any sequence of sweeps or rounds that ends with nothing to block ends in the same table |
| Tasks.LowestUnfinished | internal/task/task.go:302-316 | in an acyclic graph, below every unfinished task there is one all of whose dependencies have finished |
| Tasks.StalledNeedsPropagation | internal/task/task.go:362-383 | a stall on a valid graph always comes with a dead required dependency that nobody propagated |
| Tasks.NeverStalledAfterPropagation | internal/task/task.go:362-383 | so it is never reported after a propagation |
| Dags.Dag.NewDAG | internal/task/task.go:165-187 | accepts exactly the task lists with distinct ids, closed edges and no cycle, says which check failed first, and leaves a ranked graph |
| Dags.Dag.DetectCycle | internal/task/task.go:189-226 | reports a cycle if and only if required plus contributing edges have one, and otherwise its finishing order ranks every task above its dependencies |
| Dags.Dag.Search | internal/task/task.go:194-225 | one root's search on an explicit stack with duplicates: terminates, finds only real cycles, and blackens everything it started on |
| Dags.GreyMeansCycle | internal/task/task.go:205-215 | meeting a grey dependency closes a real path from the visited task to itself |
| Dags.FinishKeeps | internal/task/task.go:217-221 | a grey task back on top of the stack has only finished dependencies and may be ranked |
| Dags.Dag.ReadySet | internal/task/task.go:238-255 | returns exactly the waiting tasks whose dependencies allow them to run, in id order |
| Dags.Dag.ClaimableSet | internal/task/task.go:257-291 | returns exactly the ready tasks and those running under an expired lease, in id order |
| Dags.Dag.DependenciesSucceeded | internal/task/task.go:302-316 | true exactly when every required dependency succeeded and every contributing one is terminal |
| Dags.Dag.Transition | internal/task/task.go:385-393 | moves one task if and only if the table lists the move, and changes nothing else |
| Dags.Dag.PropagateFailure | internal/task/task.go:318-348 | in place, blocks exactly the doomed tasks, leaves everything else alone and returns how many there were |
| Dags.Dag.Sweep | internal/task/task.go:330-346 | one sweep blocks only doomed tasks, counts them, and blocks none only when nothing is left to propagate |
| Dags.Dag.Stalled | internal/task/task.go:362-383 | true exactly when nothing is ready, running or awaiting approval while something is unfinished |
| Protocol.OneRowStep | internal/task/task.go:65-81 | claim, renew, complete, release and decide write one row, keep its edges and the lease rule, make only moves of the table, and of a terminal row only renew writes anything: the lease end |
| Protocol.StepKeepsInv | internal/store/store.go:306-494 | every step with any reading of the clock, propagation rounds between other steps included, keeps the graph valid, dependencies safe, and leases on running tasks or on cancelled ones that kept theirs |
| Protocol.StepsAreLegal | internal/task/task.go:65-94 | whatever time its caller read, every state change of every step is a move of the transition table, a claim of a pending or expired task passing through ready |
| Protocol.HeldIsRunning | internal/store/store.go:348-365 | a task held under a live lease is running, unless it was cancelled and kept its lease |
| Protocol.GoalsMove | internal/goal/goal.go:39-45 | a goal may be cancelled, or saved in another state, if and only if it is a draft, runs or is paused |
| Protocol.StatementIsStep | internal/store/postgres.go:367-388 | on an invariant state a statement of the durable store is a protocol step if and only if its outcome may follow running and it does not complete or release a cancelled task |
| Protocol.DoomedIsWaiting | internal/store/postgres.go:468-492 | a task that propagation may block is pending or ready, so blocking it is legal and takes no lease away |
| Protocol.CancelIsExact | internal/store/store.go:447-494 | after a cancel every task is terminal or running under a live lease, and the count of tasks taken is the drop in unfinished ones |
| Runs.RunInv | internal/store/store.go:81-138 | the invariant holds in every state of every run from an empty store |
| Runs.TerminalTaskIsFrozen | internal/task/task.go:65-81 | over any run no task or edge disappears, and a terminal task keeps its state, result, attempt and everything else but the end of a lease that cancelling left on it |
| Runs.TerminalGoalIsAbsorbing | internal/store/store.go:228-258 | in runs of either store, however many stale copies are saved, a terminal goal keeps its state for ever and no claim on it ever succeeds again |
| Runs.UnfinishedAfterCancel | internal/store/store.go:447-494 | a task unfinished after a cancel either was running under a live lease at that moment and has not been claimed since, or was planned since, is pending and has never been claimed |
| Runs.UnfinishedShrinks | internal/store/store.go:447-494 | between a cancel, or any other moment, and a later one the set of unfinished tasks only shrinks if and only if no task planned in between is left unfinished |
| Runs.PlanningOutlivesCancel | internal/worker/worker.go:376-419 | a run from an empty store: a graph saved after the cancel takes the unfinished tasks from none to one |
| Runs.DoomedNeverStarts | internal/store/postgres.go:468-492 | in a run of the protocol, whatever comes between the rounds of propagation and after them, a doomed task never starts, and as soon as nothing is left to propagate it is dead |
| Runs.RunTracks | internal/store/store.go:306-415 | in runs of either store every stored column but the state is exactly what the history of successful calls says: holder and lease end, attempt as the number of claims, the result of the latest completion, the answer of the latest decision, and the rest as planned |
| Runs.CallsWriteStates | internal/store/postgres.go:355-412 | and right after a call on a task its state is the one that call names: running, the outcome, ready, or what was decided; no other task changes |
| Runs.SucceededWasReported | internal/store/postgres.go:367-380 | a succeeded task was completed as such earlier in the run, and its stored result is the one its worker reported then |
| Runs.ReportedStays | internal/store/postgres.go:367-380 | and a task so completed is succeeded with that result in every later state |
| Runs.ClaimsComeAfter | internal/store/postgres.go:287-333 | a task is claimed only after every task it requires was completed as succeeded and every contributing one has ended |
| Runs.OnlyTheHolderWrites | internal/store/postgres.go:355-388 | in runs of either store a successful renew, complete or release comes from the worker of that task's latest claim, with no complete or release since, and read the clock strictly before its lease ends |
| Runs.ClaimsAreSeparated | internal/task/task.go:257-291 | two claims of one task are separated by a return to ready or by the end of the earlier lease as the later claimer read the clock |
| Runs.LawfulRuns | internal/store/postgres.go:367-388 | a run of statements is a run of the protocol if and only if every one of them was lawful |
| Runs.CarefulRunsAreLawful | internal/store/postgres.go:355-388 | with named workers, outcomes that may follow running, and lease writes that read the clock no earlier than the cancel before them, every run of statements is a run of the protocol |
| Runs.CarefulTerminalRowStays | internal/store/postgres.go:355-388 | and then the whole row of a terminal task never changes again |
| Runs.LateCompletionRevives | internal/store/postgres.go:367-380 | from an empty store, a completion with a reading of the clock older than the cancel turns a cancelled task into a succeeded one in the durable store, while the in-process store refuses it |
| MemoryRuns.MethodIsSteps | internal/store/store.go:384-445 | a method of the in-process store is one protocol step, or one and the blocking of what it doomed |
| MemoryRuns.MethodKeepsInv | internal/store/store.go:384-445 | and keeps the invariant, whatever time it was called with |
| MemoryRuns.MemoryRunExpands | internal/store/store.go:141-146 | every run of the in-process store is a run of the protocol with rounds of blocking between its calls and the same history of leases |
| MemoryRuns.MemoryTerminalIsFrozen | internal/store/store.go:228-258 | so its terminal tasks are frozen, and its terminal goals keep their state and hand out nothing |
| MemoryRuns.MemoryRunTracks | internal/store/store.go:306-415 | its stored columns other than the state are those of the history |
| MemoryRuns.MemoryCallsWriteStates | internal/store/store.go:306-445 | right after a call there its task is in the state the call names, whatever the call also blocked |
| MemoryRuns.MemorySucceededWasReported | internal/store/store.go:379-400 | what is stored of a succeeded task is what its worker reported when completing it |
| MemoryRuns.MemoryReportedStays | internal/store/store.go:379-400 | for the rest of the run |
| MemoryRuns.MemoryClaimsComeAfter | internal/store/store.go:306-346 | and there too nothing is claimed before what it requires has succeeded and what contributes to it has ended |
| MemoryRuns.MemoryWritesAreFenced | internal/store/store.go:348-415 | its lease writes come from the latest claimer before the lease ends |
| MemoryRuns.MemoryClaimsAreSeparated | internal/task/task.go:257-291 | and its claims of one task are separated |
| MemoryRuns.MemoryUnfinishedAfterCancel | internal/store/store.go:447-494 | what is unfinished after a cancel there was running under a live lease or was planned since, and is not claimed again |
| MemoryRuns.MemoryUnfinishedShrinks | internal/store/store.go:447-494 | the unfinished tasks there only shrink if and only if no task planned in between is left unfinished |
| MemoryRuns.MemoryPlanningOutlivesCancel | internal/worker/worker.go:376-419 | the same run of a graph saved after the cancel, in the in-process store |
| MemoryRuns.MemoryDoomedNeverStarts | internal/task/task.go:318-348 | a task doomed at any moment of a run never starts, and is dead in every later state with nothing left to propagate |
| MemoryRuns.SettledUnlessLeaking | internal/store/store.go:384-400 | an in-memory call leaves nothing to propagate if and only if it is not one of the two leaking calls |
| MemoryRuns.MemoryRunsProgress | internal/store/store.go:306-445 | in every state of every run, whatever the time, a running goal can move if and only if some unfinished task is not stuck, which without a leaking call is if and only if anything is unfinished; any other goal if and only if one of its tasks is under way |
| MemoryRuns.CancelledCompletionStrands | internal/store/store.go:384-400 | a run from an empty store: completing into cancelled leaves a running goal with an unfinished task and no call that moves anything, at any time |
| MemoryRuns.StrandedNeverStarts | internal/store/store.go:384-400 | from any such state on, whatever is called, the dependent task is never started |
| Progress.ProgressIsWork | internal/store/store.go:306-445 | some call that moves a task would be let through if and only if a task runs under a live lease or awaits a person, or the goal runs and a task is claimable |
| Progress.ProgressExactly | internal/store/store.go:306-346 | in every invariant state of either store, at any time: when the goal runs, some claim, outcome, return or decision would be let through if and only if some unfinished task has no chain of unfinished dependencies down to one with a dead requirement; when it does not run, if and only if a task runs under a live lease or awaits a person |
| Progress.StalledExactly | internal/task/task.go:362-383 | and a stall is reported if and only if work remains and all of it has such a chain |
| MemoryStore.Memory.CreateGoal | internal/store/store.go:157-165 | refuses an existing id, otherwise is the protocol's creating step and touches no other goal |
| MemoryStore.Memory.SaveGoal | internal/store/store.go:214-258 | refuses to move a terminal goal's state, otherwise replaces the record; either way a step of the protocol |
| MemoryStore.Memory.SaveDAG | internal/store/store.go:289-294 | replaces the goal's graph, whatever it is; it is the protocol's growing step if and only if it keeps the stored tasks as they are and adds unclaimed ones |
| MemoryStore.Memory.Claim | internal/store/store.go:306-346 | succeeds exactly when the goal runs and something is claimable, takes the first in id order, leases it and raises its attempt, and is a step of the protocol |
| MemoryStore.Memory.LeaseOut | internal/store/store.go:325-344 | the sequence of checked moves of a claim never fails and ends in the claimed row |
| MemoryStore.Memory.HeldBy | internal/store/store.go:348-365 | accepts exactly the worker whose live lease is on the task |
| MemoryStore.Memory.Renew | internal/store/store.go:367-377 | succeeds exactly for the live holder and moves only the lease end |
| MemoryStore.Memory.Complete | internal/store/store.go:379-400 | succeeds exactly for the live holder making a legal move, gives the lease up, and on failure blocks exactly the doomed tasks |
| MemoryStore.Memory.Release | internal/store/store.go:402-415 | succeeds exactly for the live holder and returns the task to ready without a lease |
| MemoryStore.Memory.Decide | internal/store/store.go:417-445 | answers exactly a parked task; a refusal cancels it and blocks what it dooms |
| MemoryStore.Memory.Cancel | internal/store/store.go:447-494 | ends a live goal and exactly the tasks no live lease protects, returns their number, and never meets the move error its loop guards against |
| MemoryStore.Memory.CancelTasks | internal/store/store.go:464-480 | the loop in arbitrary map order reaches the same table as cancelling everything at once |
| PostgresStore.UpdateOne | internal/store/postgres.go:355-388 | an UPDATE whose WHERE clause names one task id rewrites at most that row and reports whether it did |
| PostgresStore.Postgres.SaveGoal | internal/store/postgres.go:114-170 | the same step as the in-memory save, in one transaction |
| PostgresStore.Postgres.SaveDAG | internal/store/postgres.go:219-245 | refuses a graph with an effect-bearing task without a key and then writes nothing; otherwise never changes the state, attempt, lease or result of a stored task, and is the protocol's growing step if and only if the snapshot has the stored edges and kinds and puts unclaimed tasks on top |
| PostgresStore.Postgres.LoadDAG | internal/store/postgres.go:247-285 | rebuilds exactly the stored rows, and always succeeds on rows that form a valid graph |
| PostgresStore.Postgres.Claim | internal/store/postgres.go:287-353 | succeeds exactly when the goal runs and some claimable row is not locked, takes the first of those, and makes the same step as the in-memory claim |
| PostgresStore.Postgres.Renew | internal/store/postgres.go:355-365 | one guarded UPDATE that succeeds exactly for the live holder |
| PostgresStore.Postgres.Complete | internal/store/postgres.go:367-380 | succeeds exactly for the live holder, whatever the outcome and the task's state, and writes exactly the outcome and the end of the lease on that row |
| PostgresStore.Postgres.Release | internal/store/postgres.go:382-388 | succeeds exactly for the live holder and writes exactly ready and the end of the lease on that row |
| PostgresStore.Postgres.Decide | internal/store/postgres.go:390-412 | one guarded UPDATE that answers exactly a parked task |
| PostgresStore.Postgres.Cancel | internal/store/postgres.go:414-466 | one transaction that is the same step, with the same count, as the in-memory cancel |
| PostgresStore.Postgres.Round | internal/store/postgres.go:468-492 | one round blocks exactly the tasks with a dead required dependency, all of them doomed, and is a step of the protocol |
| PostgresStore.Postgres.PropagateFailure | internal/store/postgres.go:468-492 | left undisturbed, simultaneous rounds terminate in the very table the in-place sweeps reach; Runs.DoomedNeverStarts is about rounds with other calls in between |
| PostgresStore.UpsertIsUnion | internal/store/postgres.go:219-245 | saving a snapshot of any age with new tasks on top keeps every stored row and adds the new ones |
| Order.SortedKeys | internal/task/task.go:228-236 | lists exactly the keys of a map in increasing order |
| Order.LessIsLexicographic | internal/task/task.go:228-236 | the order is lexicographic: decided at the first place where two strings differ |
| Plans.BaseIsInjective | internal/planner/plans.go:79-104 | the name derived from an axis and a position determines both, even for axes with dashes and digits |
| Plans.Plan | internal/planner/plans.go:27-181 | the loops of the four planners return each intent's specified plan, whose meaning Gates states |
| Gates.EvalSetGates | internal/planner/plans.go:112-140 | in any states of the tasks, generators may always run, the quality gate may run if and only if all four have ended and is never doomed, and publishing may run if and only if the gate succeeded and is doomed if and only if the gate is dead |
| Gates.AssessmentGates | internal/planner/plans.go:27-42 | in any states of the tasks, axes may always be assessed, the join may run if and only if every axis succeeded, and one dead axis dooms it |
| Gates.OneTaskPerAxis | internal/planner/plans.go:27-42 | there is exactly one assessing task for each axis asked for, all nine if none is, and one task more |
| Gates.OnlyPublishingHasEffects | internal/planner/plans.go:136-138 | of an eval set only publishing changes anything outside, under a key made of the goal and its revision |
| Gates.ProposalGates | internal/planner/plans.go:88-96 | in any states of the tasks a change is proposed once its assessment succeeded, verified once proposed, opened as a pull request once verified |
| Gates.OnlyPullRequestsHaveEffects | internal/planner/plans.go:91-101 | of a proposal only the pull request changes anything outside, under a key made of the goal, its revision and the finding |
| Gates.DecimalReadsBack | internal/planner/plans.go:88-89 | the position in a derived id is written as its decimal digits |
| Plans.Replan | internal/planner/plans.go:65-104 | returns the propose, verify and pull-request chain of every actionable finding of every succeeded assessment, in id order, and nothing for other intents |
| Plans.ReplanIsDeterministic | internal/planner/planner.go:53-59 | the same goal replanned on the same graph gives the same tasks in the same order |
| Plans.AllChainsAreEmitted | internal/planner/plans.go:79-104 | a task is proposed if and only if it is a link of the chain of some actionable finding |
| Plans.DistinctUnlessClash | internal/planner/plans.go:70-104 | the proposed ids are pairwise distinct if and only if no two assessments report the same axis at the same position |
| Plans.OwnAxisIsDistinct | internal/tools/assess.go:225-231 | when each assessment reports the axis its task is named after, the ids are pairwise distinct |
| Planner.AddingKeepsGraph | internal/planner/planner.go:136-164 | adding tasks whose edges lead to stored or earlier tasks keeps a graph closed and acyclic |
| Planner.PlansAreGrounded | internal/planner/plans.go:27-181 | every planned task waits only on tasks planned before it, and only a repeated axis repeats an id |
| Planner.Build | internal/planner/planner.go:99-122 | builds a valid graph of the plan unless there is no planner, too many tasks, or a repeated axis, and says which |
| Planner.Revise | internal/planner/planner.go:124-164 | returns every proposed task the graph lacks, or stops at the first one a bound refuses, keeping what came before only for the size bound |
| Planner.WholeExactly | internal/planner/planner.go:144-163 | a revision is whole if and only if every task is shallow enough, fits in its turn under the ceiling, and has a key if it needs one |
| Planner.StoppedExactly | internal/planner/planner.go:148-161 | otherwise the first that is not stops it, for depth, else size, else key, and only size keeps what came before |
| Planner.FreshIsGrounded | internal/planner/planner.go:145-149 | leaving out tasks the graph already has leaves the rest distinct and grounded |
| Planner.FreshArePlain | internal/planner/plans.go:91-100 | every task a revision adds is unclaimed, at depth one to three, and carries a key if it changes something outside |
| Planner.RevisionIsAStep | internal/planner/planner.go:124-164 | any prefix of a revision may be saved: the graph stays closed and acyclic, stored rows are untouched, and saving is a protocol step |
| Planner.MergedIsAccepted | internal/worker/worker.go:409-416 | the stored tasks in any order followed by a revision are a list that NewDAG accepts |
| Planner.RevisionFits | internal/planner/planner.go:154-157 | no revision takes a graph past its task ceiling |
| Planner.OnlySizeRefuses | internal/planner/planner.go:150-161 | with depth for the chain, such tasks are all added if and only if they fit under the task ceiling, and otherwise the ceiling is what refuses them |
| Planner.OnlyNewSuccessesAddTasks | internal/planner/plans.go:73-78 | after a complete revision has been saved, a later one adds only chains of assessments that succeeded since |
| Planner.SecondRevisionAddsNothing | internal/planner/planner.go:133-149 | with the same results a second revision adds nothing |
| Planner.RevisingAgain | internal/planner/planner.go:133-149 | once a complete revision was saved and as long as no other assessment succeeds, revising again adds nothing and finds no fault |
| PlannedRuns.ReplanningConverges | internal/planner/planner.go:133-149 | the same over any run of the protocol, however long ago the revision was saved and whatever was done since |
| PlannedRuns.MemoryReplanningConverges | internal/planner/planner.go:133-149 | and over any run of the in-process store |
| PlannedRuns.PlansAreCarried | internal/worker/worker.go:409-416 | what was planned keeps its edges for the rest of a run of the protocol |
| PlannedRuns.MemoryPlansAreCarried | internal/worker/worker.go:409-416 | and of the in-process store |
| PlannedRuns.ProposalsAreReported | internal/planner/planner.go:186-217 | in any run of the protocol Improve proposes a task if and only if it belongs to an actionable finding that a worker reported when it completed an assessment as succeeded |
| PlannedRuns.MemoryProposalsAreReported | internal/planner/planner.go:186-217 | and in any run of the in-process store |
| PlannedRuns.RevisionNeverLeaks | internal/planner/plans.go:91-100 | saving a complete revision, however stale the graph it was made from, plans nothing on top of a dead task |
| PlannedRuns.PlanningNeverLeaks | internal/worker/worker.go:392-419 | in runs whose tasks come from first plans and complete revisions, no saving leaves a dead dependency unpropagated |
| PlannedRuns.PlannedGoalsProgress | internal/worker/worker.go:376-419 | so a planned goal whose workers never complete into cancelled is never stalled; while it runs it can move if and only if something is unfinished, and otherwise if and only if one of its tasks is under way |
| RateLimit.Limiter.Allow | internal/ratelimit/ratelimit.go:74-126 | the in-place call computes the specified step: room, refill, spend, or a refusal with its wait |
| RateLimit.Limiter.Restore | internal/ratelimit/ratelimit.go:128-158 | gives one token back, up to the burst, to a key that has a bucket |
| RateLimit.Limiter.SweepFull | internal/ratelimit/ratelimit.go:167-178 | deletes exactly the buckets that have refilled, whatever the map's order |
| RateLimit.FullExactly | internal/ratelimit/ratelimit.go:85-107 | a request is refused for want of room if and only if its key is new and at least as many held keys as there is capacity for have not refilled; those are then all that is kept, and the wait told is one refill |
| RateLimit.KeysAfter | internal/ratelimit/ratelimit.go:85-107 | a request forgets nothing unless its key is new and the map full, and then exactly what has refilled; and it adds its own key unless refused for room |
| RateLimit.RefusedForRoomExactly | internal/ratelimit/ratelimit.go:85-107 | so at every request of every run, whatever the order of times |
| RateLimit.AllowKeeps | internal/ratelimit/ratelimit.go:80-126 | a call keeps tokens between nothing and the burst and the map within its capacity, whatever time it reads |
| RateLimit.KeysAreIndependent | internal/ratelimit/ratelimit.go:85-107 | a call on one key never changes what another may spend at the call's time or later, sweeps included |
| RateLimit.RunKeeps | internal/ratelimit/ratelimit.go:80-126 | over any run, with times in any order, tokens stay in bounds and the map within its capacity |
| RateLimit.LateIsDetectable | internal/ratelimit/ratelimit.go:85-107 | a request that is let in reads a time by which its forgotten bucket had not refilled if and only if it, the rest of a burst and one request a refill later are not all answered as by an unbounded limiter |
| RateLimit.WindowAccounts | internal/ratelimit/ratelimit.go:109-158 | at every moment of such a stretch, what a key was granted and what it could still spend by the greatest time read come to no more than that ceiling |
| RateLimit.SlidingWindow | internal/ratelimit/ratelimit.go:17-41 | in any stretch of a run without late requests a key is granted at most its burst, what comes back between the least and the greatest time read in it, and its restores |
| RateLimit.SweepingIsInvisible | internal/ratelimit/ratelimit.go:85-107 | over runs with times in any order, every request that is let in, and a burst begun with it, gets the answers of an unbounded limiter if and only if no request was late; the map never outgrows its capacity |
| RateLimit.AnswersAreIdeal | internal/ratelimit/ratelimit.go:85-107 | in a run without late requests every answer is that of an unbounded limiter, unless it is a refusal for want of room |
| RateLimit.AfterSweepsIsLateFree | internal/ratelimit/ratelimit.go:80-107 | a run in which no request reads a time before the sweep that forgot its key has no late request |
| RateLimit.InOrderIsAfterSweeps | internal/ratelimit/ratelimit.go:80-107 | times that never run backwards are such a run |
| RateLimit.LateCallSeesSweep | internal/ratelimit/ratelimit.go:80-107 | a run in which a late request is admitted though the unbounded limiter refuses it |
| RateLimit.LateWindow | internal/ratelimit/ratelimit.go:17-41 | and, one call longer, grants its key three requests where burst and refill allow two and a half |
| RateLimit.WaitIsHonest | internal/ratelimit/ratelimit.go:117-123 | the wait told covers the missing part of a token and exceeds it by at most a second and a half |
| RateLimit.WaitingWorks | internal/ratelimit/ratelimit.go:109-126 | a caller that waits as told, from its own reading or the last one its bucket saw, with no other call on its key, is not refused for want of a token |
| RateLimit.RefundIsExact | internal/ratelimit/ratelimit.go:128-158 | a token spent and restored, whatever other keys do in between, leaves the key's level at every later time as if neither had happened |
| TextStream.TextFieldStream.Write | internal/converse/stream.go:55-118 | the in-place call computes the specified step on the stream's state |
| TextStream.TextFieldStream.ConsumeBytes | internal/converse/stream.go:120-173 | decodes what is complete, holds back an escape that is not, and stops at the closing quote |
| TextStream.ScanSplits | internal/converse/stream.go:120-173 | reading a value in two parts, the second starting with what was held back, is reading it whole |
| TextStream.CutsDoNotMatter | internal/converse/stream.go:55-173 | however a document is cut, what has been shown is exactly the decoded text of the value bytes that have come |
| StreamCuts.SilentDocument | internal/converse/stream.go:55-118 | a document whose first key, decoys skipped, has no text shows nothing however it is cut |
| StreamCuts.CutsShow | internal/converse/stream.go:92-97 | a text behind any number of decoys is shown by some way of cutting the document |
| StreamCuts.CutsMatterExactly | internal/converse/stream.go:55-173 | what a document shows is the same for every way of cutting it, unless its first "text" is no key and a key with a text follows; exactly then two ways differ |
| JsonStrings.ScanInvertsPrint | internal/converse/stream.go:120-195 | every string, its characters written raw, by their short escape or by four hexadecimal digits in either case, is shown as UTF-8 of those characters, half a surrogate pair as a replacement character, up to its quote; a needless backslash shows what follows it, and a broken \u a replacement character |
| JsonStrings.Utf8Encodes | internal/converse/stream.go:145 | a decoded escape is written as the UTF-8 of its code point by RFC 3629, and half a surrogate pair as that of U+FFFD |
| Utf8s.PointFirst | internal/converse/stream.go:145 | the independent reading of UTF-8 takes one code point at a time |
| JsonStrings.PairsCountTwice | internal/converse/stream.go:148-168 | reading surrogate halves one by one shows one character more for each pair and is right without pairs |
| JsonStrings.DocumentDecodes | internal/converse/stream.go:55-195 | any cutting of a document that has the key "text", white space, a colon and such a string shows the code points RFC 8259 gives the string if and only if no character is written as a surrogate pair |
| JsonStrings.ShownIsPrefix | internal/converse/stream.go:20-41 | at every moment what has been shown is a prefix of what will be |
| QuotedPrintable.Encode | internal/mailer/mailer.go:367-400 | the byte loop writes the specified encoding |
| QuotedPrintable.RoundTrip | internal/mailer/mailer.go:367-400 | decoding by section 6.7 of RFC 2045 gives the text back with CR dropped and LF as CR LF |
| QuotedPrintable.LinesAreShort | internal/mailer/mailer.go:371-382 | every output line is at most 75 characters of printable ASCII |
| QuotedPrintable.DotsAreEscaped | internal/mailer/mailer.go:383-397 | no line after a hard break starts with a dot; counting soft breaks too, exactly when no dot meets a full line |
| QuotedPrintable.DotAtMarginIff | internal/mailer/mailer.go:371-400 | the exception in the caller's terms: a dot whose preceding text ends at column 74 |
| QuotedPrintable.PlainLineStays | internal/mailer/mailer.go:383-397 | a line of at most 74 printable characters without an equals sign that does not start with a dot is written as it is |
| QuotedPrintable.FullLineBreaks | internal/mailer/mailer.go:371-397 | a full one is followed by its line break, or broken softly before its 75th character |
| Bits.SetAdds | internal/discovery/axes.go:118-126 | setting a bit adds exactly that number, across both words |
| Bits.OverlapIsIntersection | internal/discovery/axes.go:118-127 | two bitsets overlap if and only if the sets of up to 128 numbers they hold meet |
| Discovery.LiteralIndex.constructor | internal/discovery/literals.go:35-47 | buckets every literal by its first two bytes, and nothing else |
| Discovery.LiteralIndex.Scan | internal/discovery/literals.go:51-73 | returns exactly the literals that occur in the text as substrings |
| Discovery.Init | internal/discovery/axes.go:148-175 | accepts exactly the tables whose patterns all have hints, none shorter than two bytes and at most 128 in all, and gives each pattern exactly the mask of its hints |
| Discovery.GateOpens | internal/discovery/axes.go:189-198 | a pattern that matches is never gated off, given that its matches imply one of its hints |
| Discovery.VisitAxis | internal/discovery/index.go:60-80 | skipping gated patterns keeps the first match of the axis |
| Discovery.NewIndex | internal/discovery/index.go:29-89 | the single gated pass gathers for every axis what a separate ungated pass over the corpus gathers; Spans says what that is |
| Spans.SpansAreMatches | internal/discovery/index.go:50-80 | the spans of an axis are of lines that are no comments, each named by the first pattern that matches it, showing the lines before and after that the pattern asks for as far as the file has them and numbered by its first line, in reading order, no two starting at one line of one file; and every such line has its span or an earlier one starts where its own would |
| Spans.ReportedShows | internal/discovery/index.go:91-122 | every reported span is such a span |
| Spans.FoundExactly | internal/discovery/index.go:91-122 | an axis is found if and only if some line that is no comment matches one of its patterns |
| Spans.CommentIsMarked | internal/discovery/axes.go:292-301 | a comment is a line that begins, after white space, with a comment marker of its language |
| Spans.LowerIgnoresCase | internal/discovery/axes.go:205-212 | lines have the same lower case if and only if they differ at most in the case of ASCII letters |
| Evidence.RankRanks | internal/discovery/index.go:187-196 | ranking is a permutation in which no span precedes an earlier one |
| Evidence.RankKeepsFiles | internal/discovery/index.go:187-196 | and stable: the spans of one file stay in the order they were found |
| Evidence.FinishAxis | internal/discovery/index.go:91-122 | turns raw matches into the specified evidence: note, ranking and cap |
| Evidence.ReportedIsRanked | internal/discovery/index.go:91-122 | an axis is found exactly when something matched; at most twelve matches are reported, files that call a model in front and counted rightly, within each kind by path; an absence says whether the walk was cut short |
| Evidence.DroppedRankLater | internal/discovery/index.go:107-119 | the cap leaves out only matches that rank no earlier than those kept |
| Evidence.Index | internal/discovery/index.go:29-89 | the gated one-pass index reports for every axis the evidence of a separate ungated pass |
| Episodes.Compress | internal/memory/memory.go:332-358 | succeeds if and only if the episodes are the goal's own, compressible, and fill a range of numbers without gap or repetition, and the summary covers exactly that range |
| Episodes.FillingCountsUp | internal/memory/memory.go:340-353 | as many numbers as the range they fill, in order, can only count it off, which is what the adjacent test checks |
| Episodes.Promote | internal/memory/memory.go:298-330 | succeeds exactly for one goal's observations and effects and cites all of them in order |
| Episodes.Mem.AppendEpisode | internal/memory/store.go:57-66 | gives the next number and appends at the end |
| Episodes.Mem.SaveSummary | internal/memory/store.go:74-86 | a fresh id, the summary kept, and exactly the episodes in its range marked |
| Episodes.Mem.PromoteKnowledge | internal/memory/store.go:94-109 | refuses a claim without evidence; otherwise keeps every earlier claim, superseding those on the same key |
| Episodes.SaveMarksExactly | internal/memory/store.go:74-86 | whatever was appended or marked since they were read, a save marks exactly the compressed episodes, all compressible |
| Episodes.HistoryIsGood | internal/memory/memory.go:93-101 | in every interleaving of appends and saves numbers are exactly 1..n and no failure or effect is ever marked summarised |
| Episodes.HistoryIsAppended | internal/memory/store.go:57-66 | and the record is exactly what was appended, in order and numbered, but for the marks |
| Episodes.OnlyTheLatestStands | internal/memory/store.go:100-107 | however often a key is promoted, every claim is kept in order and only the latest on its key is not superseded |
| Episodes.SupersededByTheNext | internal/memory/store.go:100-107 | any other claim names the goal of the next claim on its key |
| Episodes.TenantsAreApart | internal/memory/store.go:55 | two tenants never share claims, whatever the subjects, if and only if neither name continues the other behind a zero byte |
| Episodes.SubjectsAreApart | internal/memory/store.go:55 | the subjects of one tenant never share claims |

## Left out

- HTTP handlers, sessions, mail transport, rendering, the console: input, output and user interface.
- Model providers, prompts, tool bodies, git and subprocesses: foreign calls whose behaviour is not visible.
- The worker's own loop: workers are an arbitrary environment. Only the merge after a revision is modelled.
- Task objects. `Dags.Dag` keeps a map of row values, updated in place by its methods, so two graphs sharing one task
  pointer (a graph handed out by LoadDAG, or merged after a revision) are not captured.
- Pointer aliasing of goals in CreateGoal and SaveGoal: saves are by value, as in Postgres.
- Postgres below statement level: snapshots, row locks other than skipped rows, SQL parsing, column encodings. CreateGoal's
  insert is not modelled.
- Goal admission, pausing, resuming, refusing, completion criteria and ceilings: single-branch facts. Only the goal's
  states, their terminality and claimability appear.
- Failure text, error messages, timestamps and logs. `StartedAt` and the like are not part of a row.
- Checkpoints, conversation turns, preferences, tenancy scoping, and the Postgres side of the episodic memory.
- Regular expressions and the keyword tables: a pattern is any predicate, assumed to match only lines in which one of its
  hints occurs. Matching is on bytes; text is taken to be ASCII when lowercased.
- The index's node list and how call sites are found: the set of files with call sites is a parameter.
- Float rounding in the token bucket: tokens are real numbers.
- The `done` field of the stream, which nothing sets, and UTF-8 validity of the incoming bytes.
- RFC 2045's encoding of trailing spaces, which the encoder does not do.
- Registry construction and its duplicate checks.
- Runs.CarefulRunsAreLawful: one direction; without the conditions a run may still happen to be lawful, and Runs.LawfulRuns
  says exactly when.
- RateLimit.SlidingWindow: one direction; a late request gives its key tokens it should not have, but a key need not spend
  them.
- Episodes.HistoryIsGood: assumes that appended episodes arrive unmarked, since appending does not clear the mark.
- Discovery.GateOpens: assumes what the tables promise of every pattern, that a match implies a hint in the lowercased line.
