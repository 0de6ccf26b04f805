# Poolifier's task scheduler, modelled and verified

A Dafny model of the main-side scheduler of the poolifier worker pool library and of the data
structures under it: the dispatch and task stealing machine, the worker choice strategies, the task
function registries, and the deque, circular array and statistics that they use. Run
`dafny verify dfyconfig.toml` to check it.

## How it is built

* `WorkerNodes`, `Cascade` and `PoolMachine` say what every synchronous piece of scheduler code does,
  as functions from the worker nodes before it to the worker nodes after it. `Cascade` holds the
  mutual recursion between the queue operations of a node and the stealing callbacks of the pool;
  its functions carry the termination measure (`Fuel`, the number of guards that can still let a
  callback start) and two promises: no task is lost or doubled, and a node with queued tasks keeps its
  counter `executing` at or above the quota. `PoolMachine` has the events (a submission, a response, a
  timer, a redistribution iteration, a flush iteration, a new worker, a readiness change) and the runs
  they make up.
* `Pools` has the classes `WorkerNode` and `Pool`, with the fields, loops, callbacks and re-entrant
  calls of the source. Each method is proved to change the value of the pool exactly as those
  functions say, and `Pool.Reached` records that every pool object is in a state of some run, so
  the theorems about runs hold of it (`Pools.BetweenEvents`).
* `ExactlyOnce`, `Quota`, `InFlight`, `Accounting`, `Histories`, `Balance`, `Redistribution`, `Flush`,
  `StealingOrder`, `StealLoops` and `Stalling` prove the theorems about runs. `EmptyingSteals`, `FirstWorker`, `Hanging`, `WaterFilling`
  and `Spilling` go on with redistribution when the failed worker steals while it is emptied: what such
  a chain of steals does, when the loop ends, and how evenly it fills the queues. "Without moves" below means without redistribution and
  under options that never steal: no empty-queue stealing, and no back-pressure stealing or a size of
  at most one, with which the callback returns at once. Messages sent to workers are a log, answers
  arrive in any order, timers fire at any time, and the choice of a worker is any key.
* `Rotation` and `Strategies`: the choice strategies as classes, and starvation and burst bounds.
  Measured run times are inputs; run times and weights are real numbers.
* `TaskFunctions` and `Broadcast`: one worker's registry as a class, and the registries of all
  workers as replicas fed by one log.
* `Deques`, `CircularArrays` and `Statistics`: the data structures, as classes.

## Where the code does something else than one would expect

* The key under which a back-pressure steal delivers is a position in the sorted copy of the nodes,
  not the key of the node that was tested (src/pools/abstract-pool.ts:1465-1483). The two agree
  exactly when the nodes happen to be sorted (`StealingOrder.TestedNodeReceives`), and then the callback does
  what it is for (`StealingOrder.BackPressureRelieves`). When the loop of a full worker comes to that worker's own position and the node tested there passes, the worker takes its
  own task back
  (`StealingOrder.StealsFromItselfAtOwnPosition`); a full worker 0 does so first of all
  (`StealingOrder.FullFirstWorkerServesItself`).
* The response to a moved task is counted at the node it was assigned to, not at the node that ran
  it. So the counter `executing`, which all quota decisions go by, is not the number of tasks in flight
  at a worker. Under any options that steal at all, with empty-queue stealing as well as with
  back-pressure stealing, at any concurrency and size, among them the defaults, some run gives a worker
  more tasks than its quota, and some run leaves a task waiting with nothing in flight and no timer
  asleep that would ever start it (`Stalling.StallsExactly`). What always holds is that no more tasks are
  in flight in the whole pool than its counters say (`InFlight.InFlightIsCounted`).
* Redistribution takes node 0 as a destination even if it is not ready. When worker 0 itself fails,
  the loop may hand its tasks back to it for ever. It does so in a pool of any size and under any options,
  if every worker has one task more than its quota (`Hanging.RedistributionHangs`); it ends if and only if
  the other workers have room for the tasks, a matter of their queues and counters before the loop starts
  (`FirstWorker.FirstEndsExactly`). For any other worker it always ends, even if the failed worker steals
  meanwhile (`Redistribution.EndsElsewhere`).
* Redistribution is there to even out the queues, and it does, unless both kinds of stealing are on, as
  they are by default: then a destination that fills up may be relieved in favour of the longest queue
  there is (`Spilling.WaterFillsExactly`).
* docs/worker-choice-strategies.md:25-29 describes interleaved weighted round robin by rounds. In the
  code a later round only ever looks at the last worker, whose weight is used up by then, so rounds
  never choose anyone, and the strategy is a plain rotation whatever the round weights
  (`Strategies.InterleavedWeightedRoundRobinWorkerChoiceStrategy.Choose`). In a pool of one worker it
  fails for good once the worker's weight is used up (`Strategies.ExecuteAlone`).
* Both weighted strategies stay with one worker as long as no run time of it was measured
  (`Rotation.UnmeasuredNeverMoves`); `Rotation.StaysExactly` says for how many picks they stay.
* A listener of a task function operation takes any status that arrives, also that of another
  operation. With two operations under way both promises can be rejected by the statuses of one worker,
  before another has processed anything (`Broadcast.OverlappingOperationsMix`). Promises can be relied on
  exactly when every operation is sent after all earlier promises have settled
  (`Broadcast.OneAtATimeExactly`). Code that does not evaluate on a worker, as that of a native function,
  is never answered at all (`TaskFunctions.Worker.HandleTaskFunctionOperationMessage`).
* A task function given to a worker's constructor under the name `default` leaves the registry
  without any other name for the default task function (`TaskFunctions.InitialAliased`).
* `CircularArray.resize` removes as many items as the size shrinks by, even if the array was not full
  (`CircularArrays.ResizeKeepsWhatFits`); `splice` called with items but an undefined count ignores
  the items and deletes everything from the start position on (`CircularArrays.CircularArray.Splice`).

## Model

| member | source | states |
|---|---|---|
| Cascade.EnqueueTask | src/pools/worker-node.ts:81-93 | queueing a task, with all the stealing it sets off, ends for any nodes, options and guards; the task is added to the pool's tasks and none is lost or doubled; each dispatch is counted, at a node whose counter stays within the quota; guards end as they were, but for steal loops that start; a node with queued tasks keeps counting its quota as executing |
| Cascade.PopTask | src/pools/worker-node.ts:124-134 | the last task of the queue is handed out, every other task stays in the pool, and the steal loop it may start ends under the same promises |
| Cascade.EmptiedQueue | src/pools/worker-node.ts:111-121 | the common end of both removals keeps every task, and nodes with queued tasks go on counting their quota as executing |
| Cascade.StealTask | src/pools/abstract-pool.ts:1444-1455 | one steal moves one task, keeps the pool's tasks, and nodes with queued tasks go on counting their quota as executing |
| Cascade.TaskStealingOnEmptyQueue | src/pools/abstract-pool.ts:1430-1456 | stealing for an emptied queue ends and keeps all tasks and the counted quota of nodes with queued tasks; StealingOrder.EmptiedStealsFromFullest says which task it takes |
| Cascade.TasksStealingOnBackPressure | src/pools/abstract-pool.ts:1458-1491 | stealing from a full queue ends and keeps all tasks and the counted quota of nodes with queued tasks |
| Cascade.PlaceTask | src/pools/abstract-pool.ts:1480-1484 | executing at once or queueing adds exactly the task; it is executed only where the counter is below the quota |
| Cascade.EnqueuePlain | src/pools/abstract-pool.ts:1458-1478 | a task is just queued, whatever the options, when the node does not fill up or no ready node has a shorter queue |
| WorkerNodes.GrewFuel | src/pools/worker-node.ts:81-134 | no cascade, whatever it does to the nodes, gives back any of the guards that stop the recursion |
| PoolMachine.DequeueTask | src/pools/worker-node.ts:111-121 | the first task is handed out and all others stay in the pool, through any stealing that follows |
| ExactlyOnce.StepAccounted | src/pools/abstract-pool.ts:870-921 | every event keeps: pending ids are those of live tasks, live and settled tasks together are the accepted ones, what was sent is what runs or was answered |
| ExactlyOnce.ExactlyOnceDispatch | src/pools/abstract-pool.ts:870-921 | in every reachable state, with all stealing on: pending ids are exactly the ids of live tasks; a live task is in one place only; an accepted task is live or settled, never both; no task is sent twice; no promise is settled twice |
| ExactlyOnce.NeverSentTwice | src/pools/abstract-pool.ts:1646-1650 | two entries of the dispatch logs with the same id are the same entry |
| ExactlyOnce.SettledOnce | src/pools/abstract-pool.ts:1528-1541 | the tasks settled in a run have distinct ids |
| Quota.StepSteady | src/pools/abstract-pool.ts:1542-1552 | every event keeps the counted quota of nodes with queued tasks, the limit on every counter (unless it flushes) and quiet guards |
| Quota.QuotaAndStealLoops | src/pools/abstract-pool.ts:861-867 | in every reachable state a node with queued tasks counts at least its quota as executing, without flushes none counts more than the quota (plus one if emptied queues steal), exactly one continuation sleeps per node with a positive empty queue count, and no back-pressure guard is up |
| StealLoops.TickSteals | src/pools/worker-node.ts:192-204 | the timer of an idle worker steals: the last task of the fullest other ready worker now runs at the idle one, counted as stolen, and its loop sleeps again with its count one higher; no other worker changes, unless the source was left without tasks |
| StealLoops.TickFindsNothing | src/pools/worker-node.ts:192-204 | with nothing to steal, the count goes up and nothing else changes |
| StealLoops.TickEndsLoop | src/pools/worker-node.ts:193-199 | the timer of a worker that executes or has tasks waiting resets the count and does not sleep again |
| StealLoops.LoopsOverRuns | src/pools/worker-node.ts:192-204 | in every reachable state a running steal loop has one timer, before and after any event, and only a timer that finds its worker busy ends it |
| InFlight.InFlightIsCounted | src/pools/abstract-pool.ts:1003-1091 | in every reachable state, whatever moved, no more tasks are in flight in the pool than its counters add up to, and so, without flushes, at most the limit for each worker |
| Accounting.FifoPerWorker | src/pools/abstract-pool.ts:897-919 | without moves, what a worker was sent followed by its queue is what was assigned to it, in order |
| Accounting.ExactCounters | src/pools/abstract-pool.ts:1003-1091 | without moves, executing is the number of tasks in flight, all counters add up to the tasks assigned, and executing is positive whenever an answer is counted |
| Accounting.InfoTotals | src/pools/abstract-pool.ts:298-336 | without moves, the totals that info reports add up to the number of accepted tasks |
| Histories.AnswersAreCounted | src/pools/abstract-pool.ts:1075-1091 | under all options and whatever moved, a node counts as failed the answers with an error to the tasks assigned to it, as executed the other answers, and the pool totals count all answers of each kind |
| Histories.ReadyAsSaid | src/pools/abstract-pool.ts:1512-1526 | in every reachable state a worker is as ready as the last event about it said |
| Balance.LeastUsedIsFirstMinimum | src/pools/selection-strategies/least-used-worker-choice-strategy.ts:55-69 | the reduce picks the first of the nodes with the smallest load |
| Balance.LoadsStayBalanced | src/pools/selection-strategies/round-robin-worker-choice-strategy.ts:45-79 | over any run with fixed workers, successful answers and no moves, the loads of any two workers differ by at most one, both under LEAST_USED and under ROUND_ROBIN, whose cursor starts at 0 and moves on by one at each choice; so ROUND_ROBIN gives task i to worker i mod n |
| Balance.CyclicCounts | src/pools/selection-strategies/round-robin-worker-choice-strategy.ts:45-79 | after m cyclic assignments to n workers each has m / n of them, and one more below m mod n |
| Redistribution.TargetIsMinimal | src/pools/abstract-pool.ts:1392-1401 | the destination is node 0 or ready, and no such node has a shorter queue |
| Redistribution.TargetComesFirst | src/pools/abstract-pool.ts:1392-1401 | among equally short queues the first is chosen |
| Redistribution.Redistributed | src/pools/abstract-pool.ts:1390-1409 | for a failed worker other than the first, if it does not steal while it is emptied (no empty-queue stealing, or its steal loop already under way), the loop ends with its queue empty, the tasks placed in queue order, none on itself |
| Redistribution.RedistributedTo | src/pools/abstract-pool.ts:1402-1407 | if the failed worker does not steal, each other worker ends up with what it had and then exactly the tasks placed on it, in order |
| Redistribution.WaterFilled | src/pools/abstract-pool.ts:1392-1407 | if the failed worker does not steal, a queue that the loop made longer is, after any number of iterations, at most one longer than that of any node it could have chosen |
| WaterFilling.WaterFilledInTheEnd | src/pools/abstract-pool.ts:1392-1407 | once the loop has ended, a queue that got longer is at most one longer than that of any node it could have chosen, also if the failed worker steals on its way, as long as queueing sets off no back-pressure stealing |
| Spilling.WaterFillsExactly | src/pools/abstract-pool.ts:1390-1409 | in every pool that a run leads to, the loop leaves queues filled evenly, if and only if the options do not combine empty-queue stealing with back-pressure stealing at a size above one |
| EmptyingSteals.ChainSteals | src/pools/abstract-pool.ts:1430-1456 | when ready workers hold at most one waiting task each, an emptied worker gets one task at the end of a chain of steals: just one node loses one, the first on the way that is already stealing, or the last that holds any |
| Redistribution.RedistributionEnds | src/pools/abstract-pool.ts:1390-1409 | for a failed worker that does not steal, the loop ends if and only if it is not the first, or the ready idle workers have room for all its tasks |
| Redistribution.EndsElsewhere | src/pools/abstract-pool.ts:1390-1409 | under any options the loop ends for every failed worker but the first, even if emptying its queue makes it steal |
| Redistribution.RedistributionEndsExactly | src/pools/abstract-pool.ts:1390-1409 | under any options the loop ends if and only if the worker is not the first, or after as many iterations as it had tasks, the ready idle workers have room for what is left; FirstWorker.FirstEndsExactly has the condition before the call |
| FirstWorker.FirstEndsExactly | src/pools/abstract-pool.ts:1390-1409 | under any options and guards, redistribution from a failed worker 0 ends if and only if the ready idle workers, as they are before, have room for all its tasks, with one unit to spare if worker 0 will steal, unless that steal frees one; at size two with both kinds of stealing the last task may also end at a worker that is down |
| Hanging.RedistributionHangs | src/pools/abstract-pool.ts:1206-1226 | for every number of workers and all options with a queue, some submissions and the failure of worker 0 lead to a pool in which redistribution never ends, whether or not a new worker is created first |
| Flush.FlushTasksQueue | src/pools/abstract-pool.ts:1666-1674 | the flush ends with stealing on, and the queue is empty before it is cleared |
| Flush.FlushConserves | src/pools/abstract-pool.ts:1666-1674 | no task of the pool is dropped by a flush |
| Flush.FlushSendsAll | src/pools/abstract-pool.ts:1666-1672 | all tasks of the flushed queue are sent to its worker, all but the last in order and first |
| StealingOrder.KeysSorted | src/pools/abstract-pool.ts:1465-1470 | the sorted keys are in order of queue length, equal ones in key order, and contain every key |
| StealingOrder.StealsFromFullest | src/pools/abstract-pool.ts:1432-1443 | the source found is a fullest ready other worker with tasks, and there is none only if no other ready worker has any |
| StealingOrder.EmptiedStealsFromFullest | src/pools/abstract-pool.ts:1430-1456 | stealing for an emptied queue is one steal, from the ready other worker with tasks that comes first by length of its queue, the lowest key among equals |
| StealingOrder.EmptiedStealsNothing | src/pools/abstract-pool.ts:1430-1456 | if no other ready worker has tasks, it does nothing |
| StealingOrder.TestedNodeReceives | src/pools/abstract-pool.ts:1465-1484 | the tested node is the receiver at every position if and only if no queue is shorter than one before it |
| StealingOrder.BackPressureRelieves | src/pools/abstract-pool.ts:1458-1491 | if no queue is shorter than one before it and the full worker has a task for each, every other ready worker with fewer than size - 1 tasks gets exactly one, from the end of the full queue, executed where the quota allows; nothing else changes |
| StealingOrder.StealsFromItselfAtOwnPosition | src/pools/abstract-pool.ts:1471-1489 | for any number of workers: at its own position a full worker that still holds several tasks takes its own last task back, counting a steal, if the node tested there passes, and nothing happens if not |
| StealingOrder.FullFirstWorkerServesItself | src/pools/abstract-pool.ts:1458-1491 | a full worker 0 takes a task back first of all if and only if the shortest queue is that of a ready worker with room |
| StealingOrder.FullFirstWorkerStealsFromItself | src/pools/abstract-pool.ts:1458-1491 | with two workers, back-pressure stealing from a full worker 0 changes nothing but its count of stolen tasks |
| Stalling.NoStall | src/pools/abstract-pool.ts:1542-1552 | without moves, a worker with queued tasks has its quota of tasks really in flight, and never more without a flush |
| Stalling.StealingStalls | src/pools/abstract-pool.ts:1538-1552 | under any options that steal, some run of two workers gives a worker more tasks than its quota while its counter is within it, and some run ends with a task waiting, nothing in flight and no timer asleep |
| Stalling.StallsExactly | src/pools/abstract-pool.ts:1538-1552 | such runs exist if and only if there is empty-queue stealing, or back-pressure stealing with a size above one; for every concurrency and size |
| Stalling.NoStallExactly | src/pools/abstract-pool.ts:1542-1552 | in all runs without redistribution a worker with queued tasks has its quota of tasks in flight, if and only if the options never steal |
| Pools.WorkerNode.constructor | src/pools/worker-node.ts:60-73 | a new node is empty, idle, not ready, with both guards down and no callbacks |
| Pools.WorkerNode.EnqueueTask | src/pools/worker-node.ts:81-93 | on the heap, the nodes of the pool become what Cascade.EnqueueTask says; the size returned is that before stealing |
| Pools.WorkerNode.PopTask | src/pools/worker-node.ts:124-134 | result and nodes are those of Cascade.PopTask |
| Pools.WorkerNode.DequeueTask | src/pools/worker-node.ts:111-121 | result and nodes are those of PoolMachine.DequeueTask |
| Pools.WorkerNode.StartOnEmptyQueue | src/pools/worker-node.ts:192-204 | up to its await, the nodes become what PoolMachine.StartOnEmptyQueue says |
| Pools.WorkerNode.CountAnswer | src/pools/abstract-pool.ts:1075-1091 | one less executing but never below zero, one more executed or failed |
| Pools.Pool.GetWorkerNodeKeyByWorkerId | src/pools/abstract-pool.ts:525-529 | the key of the node with that id, or -1 exactly when there is none |
| Pools.Pool.SortByQueued | src/pools/abstract-pool.ts:1432-1437 | the nodes in the order of Cascade.KeysByQueued |
| Pools.Pool.ExecuteTask | src/pools/abstract-pool.ts:1646-1650 | counts the task as executing and sends it |
| Pools.Pool.TaskStealingOnEmptyQueue | src/pools/abstract-pool.ts:1430-1456 | the nodes become what Cascade.TaskStealingOnEmptyQueue says, through all re-entrant calls |
| Pools.Pool.FindSource | src/pools/abstract-pool.ts:1438-1443 | the position of the first node in the sorted copy that can be stolen from, or the end if there is none |
| Pools.Pool.StealTask | src/pools/abstract-pool.ts:1478-1488 | the nodes become what Cascade.StealTask says |
| Pools.Pool.PlaceTask | src/pools/abstract-pool.ts:1480-1484 | the nodes become what Cascade.PlaceTask says |
| Pools.Pool.UpdateTaskStolenStatisticsWorkerUsage | src/pools/abstract-pool.ts:1411-1418 | one more stolen task at one node, nothing else |
| Pools.Pool.TasksStealingOnBackPressure | src/pools/abstract-pool.ts:1458-1491 | the nodes become what Cascade.TasksStealingOnBackPressure says, through all re-entrant calls |
| Pools.Pool.Execute | src/pools/abstract-pool.ts:897-919 | the pool takes exactly the Execute step and stays in a reachable state |
| Pools.Pool.HandleTaskExecutionResponse | src/pools/abstract-pool.ts:1528-1554 | the pool takes exactly the Response step, or changes nothing when no promise waits for the task |
| Pools.Pool.Settle | src/pools/abstract-pool.ts:1530-1553 | the promise is forgotten, the task recorded as settled, and the answer counted at the node remembered for it |
| Pools.Pool.AfterResponse | src/pools/abstract-pool.ts:1538-1552 | the answer is counted and, below the quota, the next queued task is sent |
| Pools.Pool.UpdateTaskStatisticsWorkerUsage | src/pools/abstract-pool.ts:1075-1091 | exactly the counters of one node change |
| Pools.Pool.Wake | src/pools/worker-node.ts:192-204 | the continuation after the sleep takes exactly the Tick step |
| Pools.Pool.FlushTasksQueue | src/pools/abstract-pool.ts:1666-1674 | the loop ends, with the nodes as Flush.FlushTasksQueue says and nothing else changed |
| Pools.Pool.RedistributionTarget | src/pools/abstract-pool.ts:1392-1401 | the loop finds the destination that PoolMachine.RedistributionTarget defines |
| Pools.Pool.RedistributeAtMost | src/pools/abstract-pool.ts:1390-1409 | the first iterations of the loop, as many as asked for, whether the loop ends or not, are those of Redistribution.Iterate and change nothing but the nodes |
| Pools.Pool.RedistributeQueuedTasks | src/pools/abstract-pool.ts:1390-1409 | for every failed worker but the first, and for the first if the others have room for its tasks, with any options, the loop empties the queue as Redistribution.Iterate says and changes nothing but the nodes |
| Pools.Pool.CreateAndSetupWorkerNode | src/pools/abstract-pool.ts:1593-1608 | a new node with the callbacks of the options is added at the end, and the rest stays |
| Pools.Pool.SetReady | src/pools/abstract-pool.ts:1512-1526 | exactly the readiness of one node changes |
| Pools.BetweenEvents | src/pools/abstract-pool.ts:861-921 | for any pool object between events: waiting promises are those of queued or running tasks, a node with queued tasks counts its quota as executing, guards are down, one timer per steal loop |
| Rotation.EveryWindowContainsAll | src/pools/selection-strategies/weighted-round-robin-worker-choice-strategy.ts:97-116 | if no worker is picked more than B times in a row, any (n - 1) B + 1 picks contain every worker |
| Rotation.ChargeBounded | src/pools/selection-strategies/weighted-round-robin-worker-choice-strategy.ts:102-114 | the virtual run time stays below the current worker's weight plus the longest run time |
| Rotation.TokensBurst | src/pools/selection-strategies/weighted-round-robin-worker-choice-strategy.ts:97-116 | no worker is picked more than ceil(W / rmin) + 1 times in a row |
| Rotation.TokensNeverStarve | src/pools/selection-strategies/weighted-round-robin-worker-choice-strategy.ts:72-116 | every window of (n - 1) (ceil(W / rmin) + 1) + 1 picks of a run contains every worker |
| Rotation.EveryWrapContainsAll | src/pools/selection-strategies/interleaved-weighted-round-robin-worker-choice-strategy.ts:86-136 | between two wraps from the last worker to the first, every worker is picked |
| Rotation.UnmeasuredNeverMoves | src/pools/selection-strategies/abstract-worker-choice-strategy.ts:163-167 | with run times of zero every pick is the same worker |
| Rotation.StaysExactly | src/pools/selection-strategies/weighted-round-robin-worker-choice-strategy.ts:97-116 | with two or more workers and any measured run times, the first m picks all keep the token where it is, if and only if what it was charged at the start and for the first m - 1 picks is together below the weight |
| Rotation.TokensTurn | src/pools/selection-strategies/interleaved-weighted-round-robin-worker-choice-strategy.ts:86-121 | with two or more workers, positive weights and any measured run times: the turn under way at the start, and every turn that begins later, lasts exactly while the run times charged to it are below the weight, those of the pick that began it included or not |
| Rotation.TurnsDetermine | src/pools/selection-strategies/interleaved-weighted-round-robin-worker-choice-strategy.ts:86-121 | that description holds of one run of picks only |
| Strategies.RoundRobinWorkerChoiceStrategy.Choose | src/pools/selection-strategies/round-robin-worker-choice-strategy.ts:45-79 | the i-th choice is worker i mod n |
| Strategies.LeastUsedWorkerChoiceStrategy.Choose | src/pools/selection-strategies/least-used-worker-choice-strategy.ts:44-48 | the first of the least loaded workers is chosen and remembered, with the one before |
| Strategies.WeightedRoundRobinWorkerChoiceStrategy.Choose | src/pools/selection-strategies/weighted-round-robin-worker-choice-strategy.ts:72-116 | the token is kept and charged below the weight, else passed on uncharged |
| Strategies.ChooseAll | src/pools/selection-strategies/weighted-round-robin-worker-choice-strategy.ts:72-116 | a run of choices picks exactly the workers that the token visits, so the bounds of Rotation hold of it; a turn lasts exactly while the run times since the pick after the one that began it are below the weight |
| Strategies.RoundsAreWeights | src/pools/selection-strategies/interleaved-weighted-round-robin-worker-choice-strategy.ts:164-175 | the round weights are the given weights, each once, ascending |
| Strategies.InterleavedWeightedRoundRobinWorkerChoiceStrategy.Choose | src/pools/selection-strategies/interleaved-weighted-round-robin-worker-choice-strategy.ts:86-121 | the nested loops choose nothing if and only if the cursor is at the last worker and its weight is used up; otherwise the token is passed on, whatever the round weights |
| Strategies.InterleavedWeightedRoundRobinWorkerChoiceStrategy.InterleavedWeightedRoundRobinNextWorkerNodeId | src/pools/selection-strategies/interleaved-weighted-round-robin-worker-choice-strategy.ts:123-136 | the cursor goes to the next worker, and to the next round at the end of one |
| Strategies.WorkerChoiceStrategyContext.Execute | src/pools/selection-strategies/worker-choice-strategy-context.ts:173-192 | a worker is chosen if and only if the last worker is not used up or a retry can pass it; at most one retry is needed and the count is back at zero; a failure leaves the retries used up |
| Strategies.ExecuteAll | src/pools/selection-strategies/worker-choice-strategy-context.ts:173-192 | with two or more workers and a retry no execution of a run fails, and the workers chosen are those the token visits; a turn lasts exactly while the run times since the pick that began it are below the weight |
| Strategies.ExecuteAlone | src/pools/selection-strategies/worker-choice-strategy-context.ts:173-192 | with one worker an execution succeeds if and only if the run times before it, together with what was charged at the start, are below its weight, and after one failure all fail |
| TaskFunctions.ApplyKeeps | src/worker/abstract-worker.ts:179-292 | every operation keeps `default` bound to the function of exactly one other name, and a refused one changes nothing |
| TaskFunctions.SetDefaultBinds | src/worker/abstract-worker.ts:270-292 | accepted exactly for another existing name; then `default` has that name's function, and all else stays |
| TaskFunctions.AddBinds | src/worker/abstract-worker.ts:179-206 | accepted exactly for a function under another name than `default` that is not blank; then that name has a new function, `default` too if it stood for that name, and all else stays, in order |
| TaskFunctions.RemoveUnbinds | src/worker/abstract-worker.ts:214-236 | accepted exactly for an existing name that is not the default; then that name is gone, and all else stays, in order |
| TaskFunctions.InitialEntries | src/worker/abstract-worker.ts:118-154 | the first function given becomes the default, and each name gets its function, in order |
| TaskFunctions.InitialAliased | src/worker/abstract-worker.ts:135-145 | the constructor sets up that alias if and only if no task function is given under the name `default` |
| TaskFunctions.Worker.CheckTaskFunctions | src/worker/abstract-worker.ts:118-154 | an error exactly when the argument is missing, of a wrong type or an empty object, or a name is blank or a value no function; else the map of Initial, aliased as InitialAliased says |
| TaskFunctions.Worker.CheckProperties | src/worker/abstract-worker.ts:136-148 | the error is that of the first property with a blank name or a value that is no function |
| TaskFunctions.Worker.AddTaskFunction | src/worker/abstract-worker.ts:179-206 | the registry and status of Apply, with all refusals, and the alias kept |
| TaskFunctions.Worker.RemoveTaskFunction | src/worker/abstract-worker.ts:214-236 | the registry and status of Apply, and the alias kept |
| TaskFunctions.Worker.SetDefaultTaskFunction | src/worker/abstract-worker.ts:270-292 | the registry and status of Apply, and the alias kept |
| TaskFunctions.Worker.HandleTaskFunctionOperationMessage | src/worker/abstract-worker.ts:326-364 | the operation in the message is applied and its status reported, an unknown one refused; code that does not evaluate changes nothing and is not answered |
| TaskFunctions.Worker.ListTaskFunctionNames | src/worker/abstract-worker.ts:243-262 | `default`, then the name it stands for, then the others; all names and no others; without duplicates if and only if `default` stands for another name |
| Broadcast.FoldAliased | src/worker/abstract-worker.ts:179-292 | after any sequence of operations `default` stands for exactly one other name |
| Broadcast.FoldDefault | src/worker/abstract-worker.ts:270-292 | after any sequence of operations `default` stands for the name in the last accepted SetDefault, or for the initial one |
| Broadcast.FoldBinds | src/worker/abstract-worker.ts:179-236 | after any sequence of operations every other name has the code of the last accepted Add, unless it was removed since |
| Broadcast.RunReplicated | src/pools/abstract-pool.ts:772-778 | in every run each worker's registry is the fold of a prefix of the log, its inbox the rest, its outbox the statuses not yet delivered |
| Broadcast.Agreement | src/pools/abstract-pool.ts:727-780 | workers that processed equally many operations have the same registry |
| Broadcast.AllOrNone | src/pools/abstract-pool.ts:736-769 | with one operation under way at a time, a promise settles only after all workers processed the operation, with its one status; if rejected, no registry changed |
| Broadcast.OverlappingOperationsMix | src/pools/abstract-pool.ts:736-769 | with two operations under way at two workers, both promises are rejected by the statuses of one worker, though the first operation succeeds and the other worker has processed nothing |
| Broadcast.UnawaitedBreaks | src/pools/abstract-pool.ts:736-769 | whenever an operation is sent while an earlier promise is open, for any number of workers and any operations, the new promise can settle before some worker has processed it |
| Broadcast.OneAtATimeExactly | src/pools/abstract-pool.ts:727-780 | from every point of a run, promises settle only after all workers processed their operation, if and only if each operation was sent after all earlier promises had settled |
| Deques.Deque.constructor | src/deque.ts:34-36 | a new deque is empty |
| Deques.Deque.Push | src/deque.ts:44-53 | the value goes behind the sequence, both chains spell it, the new size is recorded and maxSize is the largest since the last clear |
| Deques.Deque.Unshift | src/deque.ts:61-70 | the value goes before the sequence, with the same bookkeeping |
| Deques.Deque.Pop | src/deque.ts:77-90 | the last value is removed and returned, or nothing happens to an empty deque |
| Deques.Deque.Shift | src/deque.ts:97-110 | the first value is removed and returned, or nothing happens to an empty deque |
| Deques.Deque.PeekFirst | src/deque.ts:116-118 | the first value, if any |
| Deques.Deque.PeekLast | src/deque.ts:124-126 | the last value, if any |
| Deques.Deque.Clear | src/deque.ts:131-136 | the deque is empty and its largest size starts over |
| Deques.Deque.IncrementSize | src/deque.ts:194-200 | one more, and the largest size is kept up to date |
| Deques.Deque.Iterate | src/deque.ts:144-145 | an iteration that starts at the head |
| Deques.Deque.Backward | src/deque.ts:170-173 | an iteration that starts at the tail |
| Deques.Iteration.Next | src/deque.ts:144-192 | the values come in order of the sequence, or of its reverse, and then nothing, again and again |
| Deques.Iteration.Collect | src/deque.ts:144-192 | a whole iteration yields the sequence, and a backward one its reverse |
| CircularArrays.Create | src/circular-array.ts:13-20 | a bad size is refused; otherwise a new array holds the last `size` of the items given |
| CircularArrays.CircularArray.Push | src/circular-array.ts:23-29 | the array holds the last `size` items of old and new together |
| CircularArrays.CircularArray.Unshift | src/circular-array.ts:32-38 | the array holds the first `size` items of new and old together |
| CircularArrays.CircularArray.Concat | src/circular-array.ts:41-53 | a new array of the same size holds the last items of both, and the old one is unchanged |
| CircularArrays.CircularArray.Splice | src/circular-array.ts:56-78 | all shapes of call: what is returned and what is left, overflow taken from the front, and the length within the size |
| CircularArrays.SpliceWithin | src/circular-array.ts:62-72 | inserting keeps every item: returned and left are together old and inserted, and at most `size` are left |
| CircularArrays.SpliceConserves | src/circular-array.ts:56-78 | no start and count lose or make up an item |
| CircularArrays.SpliceAt | src/circular-array.ts:56-78 | index by index, what splice returns and leaves for a start and count within the array |
| CircularArrays.SpliceElsewhere | src/circular-array.ts:56-78 | what a negative start, one past the end, and a count that is negative or too large come to |
| CircularArrays.CircularArray.Resize | src/circular-array.ts:80-90 | a bad size is refused and changes nothing; otherwise the array has the new size and the items of Resized, which on shrinking are all that fit if and only if the array was empty or full |
| CircularArrays.ResizeKeepsWhatFits | src/circular-array.ts:82-88 | shrinking keeps all items that fit if and only if the array was full or empty or the new size is zero |
| CircularArrays.WindowOfPushes | src/circular-array.ts:23-29 | after any pushes, in batches of any lengths, the array holds the last `size` of all items |
| Statistics.Min | src/utils.ts:240-241 | an argument that none is less than, or infinity without arguments |
| Statistics.Max | src/utils.ts:251-252 | an argument that is less than none, or minus infinity without arguments |
| Statistics.AverageIsMean | src/utils.ts:131-142 | the average times the number of values is their sum, and lies between any bounds of them |
| Statistics.SortedAscends | src/utils.ts:158 | the sorted copy is an ascending rearrangement of the data |
| Statistics.MedianSplits | src/utils.ts:151-164 | at least half of the values are at most the median and at least half at least the median, which lies between any bounds of them |
| Statistics.MedianOfMiddle | src/utils.ts:151-164 | twice the median is the sum of the two middle values of any ascending rearrangement of the data |
| Statistics.MeasurementStatistics.Update | src/pools/utils.ts:129-162 | after any measurements under the same requirements: aggregate is the sum, minimum and maximum the extremes, history the last 1024, average and median those of the history, where required |
| Statistics.BetweenExtremes | src/pools/utils.ts:129-162 | whatever was measured, average and median lie between minimum and maximum |

## Left out

- The transport: worker threads, cluster processes, message ports, transfer lists, kill and exit handshakes. Sends are a log, receipts are events.
- Subclasses of the pool and of the worker, event emission, performance timers, random identifiers and delays: environment; task ids are fresh and timers fire at any time.
- Removal of worker nodes, in the pool and in the strategies: keys remembered for promises and cursors go stale, so no invariant here survives it.
- Changes of options at run time (task queue switches, strategy changes with a usage reset): they reset counters under way.
- The option defaults and argument checks of `execute`, `unshiftTask`, statistics per task function, and the rounding and utilization in `info`.
- LEAST_BUSY, LEAST_ELU and FAIR_SHARE: easy argmin choices.
- The tasks queue of `Pools.WorkerNode` is a sequence, as which `Deques.Deque` is verified; its largest size is not kept there.
- A worker restarted on error is an AddNode event before the redistribution; both happen in one synchronous run in the code.
- Task function operations of the pool are modelled on values, with one registry per worker and message channels as sequences; the pool's own map of added functions and the deregistration of settled listeners are not.
- Floating point rounding, infinities and NaN as measured values: numbers are reals, and sizes of circular arrays are whole numbers. Writes past the methods of CircularArray (by index or to `length`) are not modelled.
- Iteration over a deque that changes meanwhile.
- Strategies.ExecuteAll: requires two workers and a retry, which Strategies.WorkerChoiceStrategyContext.Execute and Strategies.ExecuteAlone show to be what success needs.
- Pools.Pool.RedistributeQueuedTasks: requires room for the tasks when worker 0 fails, since a call that never returns has no state to describe; FirstWorker.FirstEndsExactly shows that this leaves out no call that returns, and Pools.Pool.RedistributeAtMost covers the others, up to any iteration.
- Task function names that are not strings, which are refused before anything else, and operations whose code does not evaluate in the replicated registries (a worker never answers them, so their promise never settles).
