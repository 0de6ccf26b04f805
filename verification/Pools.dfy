/**
  The pool and its worker nodes as they are in the source: objects updated in place, whose methods
  call one another through the callbacks that the pool sets on its nodes. Each method is proved to
  turn the value of the pool into what the functions of Cascade and PoolMachine say.
 */
module Pools {
  import opened Wrappers
  import opened WorkerNodes
  import C = Cascade
  import M = PoolMachine
  import F = Flush
  import R = Redistribution
  import E = ExactlyOnce
  import Q = Quota
  import S = StealingOrder
  import W = FirstWorker

  class WorkerNode {
    const id: nat
    const tasksQueueBackPressureSize: nat
    // the position of the node in the pool it was added to
    ghost const key: nat
    var onBackPressure: Pool?
    var onEmptyQueue: Pool?
    var tasksQueue: seq<Task>
    var onBackPressureStarted: bool
    var onEmptyQueueCount: nat
    var ready: bool
    var executing: nat
    var executed: nat
    var failed: nat
    var stolen: nat

    // what is outside the node: timers, messages sent to the worker, tasks it has not answered
    ghost var asleep: nat
    ghost var sent: seq<Task>
    ghost var running: multiset<Task>

    ghost function Value(): Node
      reads this
    {
      Node(tasksQueue, executing, executed, failed, stolen, ready, onBackPressureStarted, onEmptyQueueCount,
           asleep, sent, running)
    }

    constructor (id: nat, tasksQueueBackPressureSize: nat, ghost key: nat)
      ensures this.id == id && this.key == key && this.tasksQueueBackPressureSize == tasksQueueBackPressureSize
      ensures Value() == NewNode(false) && onBackPressure == null && onEmptyQueue == null
    {
      this.id := id;
      this.key := key;
      this.tasksQueueBackPressureSize := tasksQueueBackPressureSize;
      onBackPressure, onEmptyQueue := null, null;
      tasksQueue := [];
      onBackPressureStarted, onEmptyQueueCount := false, 0;
      ready := false;
      executing, executed, failed, stolen := 0, 0, 0, 0;
      asleep, sent, running := 0, [], multiset{};
    }

    predicate HasBackPressure()
      reads this
    {
      |tasksQueue| >= tasksQueueBackPressureSize
    }

    method EnqueueTask(task: Task, ghost pool: Pool) returns (tasksQueueSize: nat)
      requires pool.Valid() && pool.IsNode(this)
      modifies pool.workerNodes
      ensures pool.Valid() && tasksQueueSize == |old(tasksQueue)| + 1
      ensures pool.Nodes() == C.EnqueueTask(pool.opts, old(pool.Nodes()), key, task)
      decreases Fuel(pool.Nodes()), 1
    {
      hide Pool.UniqueIds, Pool.Nodes, Fuel, C.Cascaded, C.WorkConserving, C.EnqueueTask, OnBackPressure;
      EnqueueTaskUnfolds(pool.opts, pool.Nodes(), key, task);
      ghost var ns := pool.Nodes();
      tasksQueue := tasksQueue + [task];
      tasksQueueSize := |tasksQueue|;
      ghost var pushed := pool.Nodes();
      assert pushed == ns[key := ns[key].(queue := ns[key].queue + [task])];
      if onBackPressure != null && HasBackPressure() && !onBackPressureStarted {
        StartOnBackPressure(pool);
      }
    }

    /** The guarded callback at the end of enqueueTask. */
    method StartOnBackPressure(ghost pool: Pool)
      requires pool.Valid() && pool.IsNode(this) && onBackPressure != null && !onBackPressureStarted
      modifies pool.workerNodes
      ensures pool.Valid() && pool.Nodes() == OnBackPressure(pool.opts, old(pool.Nodes()), key)
      decreases Fuel(pool.Nodes()), 0
    {
      hide Pool.UniqueIds, Pool.Nodes, Fuel, C.Cascaded, C.WorkConserving, C.TasksStealingOnBackPressure, WithGuard;
      RaisedGuardBurns(pool.Nodes(), key);
      SetOnBackPressureStarted(true, pool);
      onBackPressure.TasksStealingOnBackPressure(id, key);
      SetOnBackPressureStarted(false, pool);
    }

    method SetOnBackPressureStarted(started: bool, ghost pool: Pool)
      requires pool.Valid() && pool.IsNode(this)
      modifies this`onBackPressureStarted
      ensures pool.Valid() && onBackPressureStarted == started
      ensures pool.Nodes() == WithGuard(old(pool.Nodes()), key, started)
    {
      ghost var ns := pool.Nodes();
      onBackPressureStarted := started;
      assert pool.Nodes() == ns[key := ns[key].(backPressureStarted := started)];
    }

    method PopTask(ghost pool: Pool) returns (task: Option<Task>)
      requires pool.Valid() && pool.IsNode(this)
      modifies pool.workerNodes
      ensures pool.Valid()
      ensures C.Taken(task, pool.Nodes()) == C.PopTask(pool.opts, old(pool.Nodes()), key)
      decreases Fuel(pool.Nodes()), 1
    {
      hide Pool.UniqueIds, Pool.Nodes, Fuel, C.Cascaded, C.WorkConserving, C.PopTask, C.EmptiedQueue, M.StartOnEmptyQueue;
      PopTaskUnfolds(pool.opts, pool.Nodes(), key);
      ghost var ns := pool.Nodes();
      if tasksQueue == [] {
        task := None;
      } else {
        task := Some(tasksQueue[|tasksQueue| - 1]);
        tasksQueue := tasksQueue[..|tasksQueue| - 1];
        assert pool.Nodes() == ns[key := ns[key].(queue := ns[key].queue[..|ns[key].queue| - 1])];
      }
      EmptiedQueueUnfolds(pool.opts, pool.Nodes(), key);
      if onEmptyQueue != null && tasksQueue == [] && onEmptyQueueCount == 0 {
        StartOnEmptyQueue(pool);
      }
    }

    method DequeueTask(ghost pool: Pool) returns (task: Option<Task>)
      requires pool.Valid() && pool.IsNode(this)
      modifies pool.workerNodes
      ensures pool.Valid()
      ensures C.Taken(task, pool.Nodes()) == M.DequeueTask(pool.opts, old(pool.Nodes()), key)
    {
      hide Pool.UniqueIds, Pool.Nodes, Fuel, C.Cascaded, C.WorkConserving, C.EmptiedQueue, M.StartOnEmptyQueue;
      ghost var ns := pool.Nodes();
      if tasksQueue == [] {
        task := None;
      } else {
        task := Some(tasksQueue[0]);
        tasksQueue := tasksQueue[1..];
        assert pool.Nodes() == ns[key := ns[key].(queue := ns[key].queue[1..])];
      }
      EmptiedQueueUnfolds(pool.opts, pool.Nodes(), key);
      if onEmptyQueue != null && tasksQueue == [] && onEmptyQueueCount == 0 {
        StartOnEmptyQueue(pool);
      }
    }

    /** Runs up to the await; the rest is what the timer calls, Pool.Wake. */
    method StartOnEmptyQueue(ghost pool: Pool)
      requires pool.Valid() && pool.IsNode(this)
      modifies pool.workerNodes
      ensures pool.Valid() && pool.Nodes() == M.StartOnEmptyQueue(pool.opts, old(pool.Nodes()), key)
      decreases Fuel(pool.Nodes()), if onEmptyQueueCount == 0 then 0 else 6
    {
      hide Pool.UniqueIds, Pool.Nodes, Fuel, C.Cascaded, C.WorkConserving, C.TaskStealingOnEmptyQueue;
      hide M.StartOnEmptyQueue, Slept, WithCount;
      StartOnEmptyQueueUnfolds(pool.opts, pool.Nodes(), key);
      if onEmptyQueueCount > 0 && (executing > 0 || |tasksQueue| > 0) {
        SetOnEmptyQueueCount(0, pool);
        return;
      }
      SetOnEmptyQueueCount(onEmptyQueueCount + 1, pool);
      if onEmptyQueue != null {
        onEmptyQueue.TaskStealingOnEmptyQueue(id, key);
      }
      Sleep(pool);
    }

    method SetOnEmptyQueueCount(count: nat, ghost pool: Pool)
      requires pool.Valid() && pool.IsNode(this)
      modifies this`onEmptyQueueCount
      ensures pool.Valid() && onEmptyQueueCount == count
      ensures pool.Nodes() == WithCount(old(pool.Nodes()), key, count)
    {
      ghost var ns := pool.Nodes();
      onEmptyQueueCount := count;
      assert pool.Nodes() == ns[key := ns[key].(emptyQueueCount := count)];
    }

    method CountAnswer(failed: bool)
      modifies this
      ensures Value() == M.CountAnswer(old(Value()), failed)
      ensures onBackPressure == old(onBackPressure) && onEmptyQueue == old(onEmptyQueue)
    {
      if executing > 0 {
        executing := executing - 1;
      }
      if !failed {
        executed := executed + 1;
      } else {
        this.failed := this.failed + 1;
      }
    }

    ghost method Sleep(pool: Pool)
      requires pool.Valid() && pool.IsNode(this)
      modifies this`asleep
      ensures pool.Valid() && pool.Nodes() == Slept(old(pool.Nodes()), key)
    {
      ghost var ns := pool.Nodes();
      asleep := asleep + 1;
      assert pool.Nodes() == ns[key := ns[key].(asleep := ns[key].asleep + 1)];
    }
  }

  // ---- The steps of a method in the terms of the functions they refine ----

  function WithGuard(ns: seq<Node>, k: nat, started: bool): (r: seq<Node>)
    requires k < |ns|
    ensures |r| == |ns|
  {
    ns[k := ns[k].(backPressureStarted := started)]
  }

  function OnBackPressure(o: Options, ns: seq<Node>, k: nat): seq<Node>
    requires k < |ns|
  {
    WithGuard(C.TasksStealingOnBackPressure(o, WithGuard(ns, k, true), k), k, false)
  }

  lemma RaisedGuardBurns(ns: seq<Node>, k: nat)
    requires k < |ns| && !ns[k].backPressureStarted
    ensures Fuel(WithGuard(ns, k, true)) < Fuel(ns)
  {
    TotalUpdate(ns, k, ns[k].(backPressureStarted := true), NodeFuel);
  }

  lemma EnqueueTaskUnfolds(o: Options, ns: seq<Node>, k: nat, t: Task)
    requires k < |ns|
    ensures var pushed := ns[k := ns[k].(queue := ns[k].queue + [t])];
      && Fuel(pushed) == Fuel(ns)
      && C.EnqueueTask(o, ns, k, t) ==
        if o.StealsOnBackPressure() && |ns[k].queue| + 1 >= o.size && !ns[k].backPressureStarted then
          OnBackPressure(o, pushed, k)
        else
          pushed
  {
    C.Pushed(o, ns, k, t);
  }

  lemma PopTaskUnfolds(o: Options, ns: seq<Node>, k: nat)
    requires k < |ns|
    ensures ns[k].queue == [] ==> C.PopTask(o, ns, k) == C.Taken(None, C.EmptiedQueue(o, ns, k))
    ensures ns[k].queue != [] ==>
      var last := |ns[k].queue| - 1;
      var popped := ns[k := ns[k].(queue := ns[k].queue[..last])];
      && Fuel(popped) == Fuel(ns)
      && C.PopTask(o, ns, k) == C.Taken(Some(ns[k].queue[last]), C.EmptiedQueue(o, popped, k))
  {
    if ns[k].queue != [] {
      C.Popped(o, ns, k);
    }
  }

  /** A steal loop that starts is a StartOnEmptyQueue with the count at zero. */
  lemma EmptiedQueueUnfolds(o: Options, ns: seq<Node>, k: nat)
    requires k < |ns|
    ensures C.EmptiedQueue(o, ns, k) ==
      if o.StealsOnEmptyQueue() && ns[k].queue == [] && ns[k].emptyQueueCount == 0
        then M.StartOnEmptyQueue(o, ns, k) else ns
  {
    hide C.Cascaded, C.WorkConserving;
  }

  function Slept(ns: seq<Node>, k: nat): seq<Node>
    requires k < |ns|
  {
    ns[k := ns[k].(asleep := ns[k].asleep + 1)]
  }

  function WithCount(ns: seq<Node>, k: nat, count: nat): (r: seq<Node>)
    requires k < |ns|
    ensures |r| == |ns|
  {
    ns[k := ns[k].(emptyQueueCount := count)]
  }

  lemma StartOnEmptyQueueUnfolds(o: Options, ns: seq<Node>, k: nat)
    requires k < |ns|
    ensures var started := WithCount(ns, k, ns[k].emptyQueueCount + 1);
      && (if ns[k].emptyQueueCount == 0 then Fuel(started) < Fuel(ns) else Fuel(started) == Fuel(ns))
      && M.StartOnEmptyQueue(o, ns, k) ==
        if ns[k].emptyQueueCount > 0 && (ns[k].executing > 0 || ns[k].queue != []) then
          WithCount(ns, k, 0)
        else
          Slept(if o.StealsOnEmptyQueue() then C.TaskStealingOnEmptyQueue(o, started, k) else started, k)
  {
    hide C.Cascaded, C.WorkConserving, C.TaskStealingOnEmptyQueue, Fuel;
    StartingBurns(ns, k);
  }

  lemma StartingBurns(ns: seq<Node>, k: nat)
    requires k < |ns|
    ensures var started := ns[k := ns[k].(emptyQueueCount := ns[k].emptyQueueCount + 1)];
      if ns[k].emptyQueueCount == 0 then Fuel(started) < Fuel(ns) else Fuel(started) == Fuel(ns)
  {
    TotalUpdate(ns, k, ns[k].(emptyQueueCount := ns[k].emptyQueueCount + 1), NodeFuel);
  }

  lemma FuelFor(o: Options, s: M.State, events: seq<M.Event>, k: nat) returns (fuel: nat)
    requires k < |s.nodes| && M.Run(o, M.Init(0), events, s)
    requires R.Ends(o, s.nodes, k)
      || (!s.nodes[k].ready && (0 < k || (o.enableTasksQueue && W.HasRoom(o, s.nodes))))
    ensures R.Iterate(o, s.nodes, k, fuel)[k].queue == []
  {
    hide R.Iterate, W.HasRoom, M.Run;
    if !R.Ends(o, s.nodes, k) {
      if 0 < k {
        R.EndsElsewhere(o, s.nodes, k);
      } else {
        Q.QuotaAndStealLoops(o, 0, events, s);
        W.FirstEndsExactly(o, s.nodes);
      }
    }
    fuel :| R.Iterate(o, s.nodes, k, fuel)[k].queue == [];
  }

  lemma IterateUnfolds(o: Options, ns: seq<Node>, k: nat, fuel: nat)
    requires k < |ns|
    ensures fuel == 0 || ns[k].queue == [] ==> R.Iterate(o, ns, k, fuel) == ns
    ensures fuel > 0 && ns[k].queue != [] ==>
      R.Iterate(o, ns, k, fuel) == R.Iterate(o, M.RedistributeOne(o, ns, k), k, fuel - 1)
  {
  }

  function CountedSteal(ns: seq<Node>, k: nat): seq<Node>
    requires k < |ns|
  {
    ns[k := ns[k].(stolen := ns[k].stolen + 1)]
  }

  lemma StealTaskUnfolds(o: Options, ns: seq<Node>, source: nat, destination: nat)
    requires source < |ns| && destination < |ns| && ns[source].queue != []
    ensures var popped := C.PopTask(o, ns, source);
      && popped.task.Some? && |popped.nodes| == |ns| && Fuel(popped.nodes) <= Fuel(ns)
      && var placed := C.PlaceTask(o, popped.nodes, destination, popped.task.value);
      |placed| == |ns| && C.StealTask(o, ns, source, destination) == CountedSteal(placed, destination)
  {
    hide C.WorkConserving, C.PopTask, C.PlaceTask, Fuel;
    GrewFuel(o.concurrency, ns, C.PopTask(o, ns, source).nodes);
  }

  lemma StealFromFullUnfolds(o: Options, ns: seq<Node>, k: nat, order: seq<nat>, i: nat)
    requires k < |ns| && i < |order| == |ns|
    requires forall j :: 0 <= j < |order| ==> order[j] < |ns|
    ensures var steals := ns[k].queue != [] && ns[order[i]].ready && order[i] != k && |ns[order[i]].queue| < o.size - 1;
      if steals then
        && Fuel(C.StealTask(o, ns, k, i)) <= Fuel(ns)
        && |C.StealTask(o, ns, k, i)| == |ns|
        && C.StealFromFull(o, ns, k, order, i) == C.StealFromFull(o, C.StealTask(o, ns, k, i), k, order, i + 1)
      else C.StealFromFull(o, ns, k, order, i) == C.StealFromFull(o, ns, k, order, i + 1)
  {
    hide C.WorkConserving, C.StealTask, Fuel;
    if ns[k].queue != [] {
      GrewFuel(o.concurrency, ns, C.StealTask(o, ns, k, i));
    }
  }

  ghost function Values(workerNodes: seq<WorkerNode>): (ns: seq<Node>)
    reads workerNodes
    ensures |ns| == |workerNodes|
    ensures forall i :: 0 <= i < |ns| ==> ns[i] == workerNodes[i].Value()
  {
    seq(|workerNodes|, i requires 0 <= i < |workerNodes| reads workerNodes => workerNodes[i].Value())
  }

  class Pool {
    const opts: Options
    var workerNodes: seq<WorkerNode>
    var promiseResponseMap: map<nat, nat>
    ghost var accepted: seq<M.Assignment>
    ghost var settled: seq<Task>
    // every event handled since the pool was created
    ghost var events: seq<M.Event>

    ghost predicate Valid()
      reads this, workerNodes
    {
      && UniqueIds()
      && (forall i {:trigger workerNodes[i]} :: 0 <= i < |workerNodes| ==> SetUp(i, workerNodes[i]))
      && (forall id :: id in promiseResponseMap ==> promiseResponseMap[id] < |workerNodes|)
    }

    ghost predicate UniqueIds()
      reads this`workerNodes
    {
      forall i, j :: 0 <= i < j < |workerNodes| ==> workerNodes[i].id != workerNodes[j].id
    }

    ghost predicate SetUp(i: int, n: WorkerNode)
      reads n
    {
      && n.key == i
      && n.tasksQueueBackPressureSize == opts.size
      && n.onBackPressure == (if opts.StealsOnBackPressure() then this else null)
      && n.onEmptyQueue == (if opts.StealsOnEmptyQueue() then this else null)
    }

    ghost predicate IsNode(n: WorkerNode)
      reads this`workerNodes
    {
      n.key < |workerNodes| && workerNodes[n.key] == n
    }

    /** The value of each worker node. */
    ghost function Nodes(): (ns: seq<Node>)
      reads this`workerNodes, workerNodes
      ensures |ns| == |workerNodes|
      ensures forall i :: 0 <= i < |ns| ==> ns[i] == workerNodes[i].Value()
    {
      Values(workerNodes)
    }

    /** The value of the whole pool. */
    ghost function State(): M.State
      reads this, workerNodes
    {
      M.State(Nodes(), promiseResponseMap, accepted, settled)
    }

    /** The pool is in a state that the events handled so far lead to, so the theorems about runs hold of it. */
    ghost predicate Reached()
      reads this, workerNodes
    {
      M.Run(opts, M.Init(0), events, State())
    }

    constructor (opts: Options)
      ensures Valid() && Reached() && State() == M.Init(0) && this.opts == opts
    {
      this.opts := opts;
      workerNodes := [];
      promiseResponseMap := map[];
      accepted, settled, events := [], [], [];
    }

    method GetWorkerNodeKeyByWorkerId(workerId: nat) returns (key: int)
      ensures key == -1 ==> forall n :: n in workerNodes ==> n.id != workerId
      ensures key != -1 ==> 0 <= key < |workerNodes| && workerNodes[key].id == workerId
    {
      key := 0;
      while key < |workerNodes|
        invariant 0 <= key <= |workerNodes|
        invariant forall i :: 0 <= i < key ==> workerNodes[i].id != workerId
      {
        if workerNodes[key].id == workerId {
          return;
        }
        key := key + 1;
      }
      key := -1;
    }

    predicate ShallExecuteTask(k: nat)
      requires k < |workerNodes|
      reads this, workerNodes
    {
      |workerNodes[k].tasksQueue| == 0 && workerNodes[k].executing < opts.concurrency
    }

    method ExecuteTask(k: nat, task: Task)
      requires Valid() && k < |workerNodes|
      modifies workerNodes[k]
      ensures Valid() && Nodes() == C.ExecuteTask(old(Nodes()), k, task)
    {
      var n := workerNodes[k];
      n.executing := n.executing + 1;
      n.sent, n.running := n.sent + [task], n.running + multiset{task};
    }

    /** The nodes in the order of sort, stable as the language defines it. */
    method SortByQueued(descending: bool) returns (sorted: seq<WorkerNode>, ghost order: seq<nat>)
      ensures order == C.KeysByQueued(Nodes(), descending, |workerNodes|)
      ensures |sorted| == |order| && forall i :: 0 <= i < |order| ==> sorted[i] == workerNodes[order[i]]
    {
      hide Nodes, C.Insert;
      sorted, order := [], [];
      for n := 0 to |workerNodes|
        invariant order == C.KeysByQueued(Nodes(), descending, n)
        invariant |sorted| == n && forall i :: 0 <= i < n ==> sorted[i] == workerNodes[order[i]]
      {
        sorted, order := InsertByQueued(descending, sorted, n, order);
      }
    }

    method InsertByQueued(descending: bool, sorted: seq<WorkerNode>, key: nat, ghost order: seq<nat>)
      returns (r: seq<WorkerNode>, ghost newOrder: seq<nat>)
      requires key < |workerNodes| && |sorted| == |order|
      requires forall j :: 0 <= j < |order| ==> order[j] < |workerNodes| && sorted[j] == workerNodes[order[j]]
      ensures newOrder == C.Insert(Nodes(), descending, order, key)
      ensures |r| == |newOrder| && forall j :: 0 <= j < |r| ==> r[j] == workerNodes[newOrder[j]]
    {
      hide Nodes;
      var node := workerNodes[key];
      var i := |sorted|;
      while i > 0 && (if descending then |node.tasksQueue| > |sorted[i - 1].tasksQueue|
                      else |node.tasksQueue| < |sorted[i - 1].tasksQueue|)
        modifies {}
        invariant 0 <= i <= |sorted|
        invariant forall j :: i <= j < |sorted| ==> C.Before(Nodes(), descending, key, order[j])
      {
        i := i - 1;
      }
      S.InsertedAt(Nodes(), descending, order, key, i);
      r := sorted[..i] + [node] + sorted[i..];
      newOrder := order[..i] + [key] + order[i..];
    }

    /** Array.prototype.find with the condition of a node to steal from. */
    method FindSource(sorted: seq<WorkerNode>, workerId: nat, ghost k: nat, ghost order: seq<nat>) returns (i: nat)
      requires Valid() && k < |workerNodes| && workerNodes[k].id == workerId && |sorted| == |order|
      requires forall j :: 0 <= j < |order| ==> order[j] < |workerNodes| && sorted[j] == workerNodes[order[j]]
      ensures i <= |sorted|
      ensures C.FindSource(Nodes(), k, order) == if i < |order| then Some(order[i]) else None
    {
      hide UniqueIds, Nodes;
      i := 0;
      while i < |sorted| && !(sorted[i].ready && sorted[i].id != workerId && |sorted[i].tasksQueue| > 0)
        modifies {}
        invariant 0 <= i <= |sorted|
        invariant C.FindSource(Nodes(), k, order) == C.FindSource(Nodes(), k, order[i..])
      {
        SameKey(order[i], k);
        assert order[i..][1..] == order[i + 1..];
        i := i + 1;
      }
      if i < |sorted| {
        SameKey(order[i], k);
      }
    }

    method TaskStealingOnEmptyQueue(workerId: nat, ghost k: nat)
      requires Valid() && k < |workerNodes| && workerNodes[k].id == workerId
      modifies workerNodes
      ensures Valid() && Nodes() == C.TaskStealingOnEmptyQueue(opts, old(Nodes()), k)
      decreases Fuel(Nodes()), 4
    {
      hide UniqueIds, Nodes, C.Cascaded, C.WorkConserving, C.KeysByQueued, C.StealTask, Fuel;
      var destination := GetWorkerNodeKeyByWorkerId(workerId);
      SameKey(destination, k);
      var sorted, order := SortByQueued(true);
      var i := FindSource(sorted, workerId, k, order);
      if i < |sorted| {
        StealTask(sorted[i], destination);
      }
    }

    lemma SameKey(i: int, j: int)
      requires Valid() && 0 <= i < |workerNodes| && 0 <= j < |workerNodes|
      ensures workerNodes[i].id == workerNodes[j].id <==> i == j
    {
    }

    /** What both kinds of stealing do with a source node and a destination key. */
    method StealTask(source: WorkerNode, destination: nat)
      requires Valid() && IsNode(source) && destination < |workerNodes|
      requires source.tasksQueue != []
      modifies workerNodes
      ensures Valid() && Nodes() == C.StealTask(opts, old(Nodes()), source.key, destination)
      decreases Fuel(Nodes()), 3
    {
      hide UniqueIds, Nodes, C.Cascaded, C.WorkConserving, C.PopTask, C.PlaceTask, C.StealTask, Fuel;
      StealTaskUnfolds(opts, Nodes(), source.key, destination);
      var popped := source.PopTask(this);
      var task := popped.value;
      PlaceTask(destination, task);
      UpdateTaskStolenStatisticsWorkerUsage(destination);
    }

    /** Executes the task now when the node has room for it, and queues it otherwise. */
    method PlaceTask(k: nat, task: Task)
      requires Valid() && k < |workerNodes|
      modifies workerNodes
      ensures Valid() && Nodes() == C.PlaceTask(opts, old(Nodes()), k, task)
      decreases Fuel(Nodes()), 2
    {
      hide UniqueIds, Nodes, C.Cascaded, C.WorkConserving, C.EnqueueTask, C.ExecuteTask, Fuel;
      if ShallExecuteTask(k) {
        ExecuteTask(k, task);
      } else {
        var _ := workerNodes[k].EnqueueTask(task, this);
      }
    }

    method UpdateTaskStolenStatisticsWorkerUsage(k: nat)
      requires Valid() && k < |workerNodes|
      modifies workerNodes[k]
      ensures Valid() && Nodes() == CountedSteal(old(Nodes()), k)
    {
      ghost var ns := Nodes();
      workerNodes[k].stolen := workerNodes[k].stolen + 1;
      assert Nodes() == ns[k := ns[k].(stolen := ns[k].stolen + 1)];
    }

    /** The loop's key is a position in the sorted copy, and is used as a key of the pool all the same. */
    method TasksStealingOnBackPressure(workerId: nat, ghost k: nat)
      requires Valid() && k < |workerNodes| && workerNodes[k].id == workerId
      modifies workerNodes
      ensures Valid() && Nodes() == C.TasksStealingOnBackPressure(opts, old(Nodes()), k)
      decreases Fuel(Nodes()), 5
    {
      hide UniqueIds, Nodes, C.Cascaded, C.WorkConserving, C.KeysByQueued, C.StealTask, C.StealFromFull, Fuel;
      if opts.size <= 1 {
        return;
      }
      var sourceKey := GetWorkerNodeKeyByWorkerId(workerId);
      SameKey(sourceKey, k);
      var sorted, order := SortByQueued(false);
      StealFromFull(workerNodes[sourceKey], workerId, sorted, order);
    }

    method StealFromFull(source: WorkerNode, workerId: nat, sorted: seq<WorkerNode>, ghost order: seq<nat>)
      requires Valid() && IsNode(source) && source.id == workerId && |sorted| == |order| == |workerNodes|
      requires forall j :: 0 <= j < |order| ==> order[j] < |workerNodes| && sorted[j] == workerNodes[order[j]]
      modifies workerNodes
      ensures Valid() && Nodes() == C.StealFromFull(opts, old(Nodes()), source.key, order, 0)
      decreases Fuel(Nodes()), 4
    {
      hide UniqueIds, Nodes, C.Cascaded, C.WorkConserving, C.StealTask, Fuel;
      for i := 0 to |sorted|
        invariant Valid()
        invariant C.StealFromFull(opts, old(Nodes()), source.key, order, 0)
               == C.StealFromFull(opts, Nodes(), source.key, order, i)
        invariant Fuel(Nodes()) <= old(Fuel(Nodes()))
      {
        SameKey(order[i], source.key);
        StealFromFullUnfolds(opts, Nodes(), source.key, order, i);
        if |source.tasksQueue| > 0 && sorted[i].ready && sorted[i].id != workerId &&
           |sorted[i].tasksQueue| < opts.size - 1 {
          StealTask(source, i);
        }
      }
    }

    // ---- Events ----

    ghost method Handled(e: M.Event, before: M.State)
      requires Valid() && M.Run(opts, M.Init(0), events, before) && M.Enabled(before, e)
      requires State() == M.Step(opts, before, e)
      modifies this`events
      ensures Valid() && Reached() && State() == old(State()) && events == old(events) + [e]
    {
      hide M.Step, M.Run, M.Enabled, Nodes, UniqueIds;
      M.RunThen(opts, M.Init(0), events, before, e);
      events := events + [e];
      assert State() == old(State());
    }

    /** The worker node key is the choice of the strategy, the task id a fresh UUID. */
    method Execute(workerNodeKey: nat, task: Task)
      requires Valid() && Reached() && M.Enabled(State(), M.Execute(workerNodeKey, task))
      modifies this, workerNodes
      ensures Valid() && Reached() && workerNodes == old(workerNodes)
      ensures State() == M.Step(opts, old(State()), M.Execute(workerNodeKey, task))
    {
      hide UniqueIds, Nodes, M.Run, C.PlaceTask, C.ExecuteTask;
      ghost var before := State();
      promiseResponseMap := promiseResponseMap[task.taskId := workerNodeKey];
      accepted := accepted + [M.Assignment(workerNodeKey, task)];
      if !opts.enableTasksQueue {
        ExecuteTask(workerNodeKey, task);
      } else {
        PlaceTask(workerNodeKey, task);
      }
      Handled(M.Execute(workerNodeKey, task), before);
    }

    /** A worker answers: the promise of its task is settled, or the answer is ignored when there is none. */
    method HandleTaskExecutionResponse(task: Task, failed: bool, ghost sender: nat)
      requires Valid() && Reached()
      requires task.taskId in promiseResponseMap ==> M.Enabled(State(), M.Response(sender, task, failed))
      modifies this, workerNodes
      ensures Valid() && Reached() && workerNodes == old(workerNodes)
      ensures State() == if task.taskId in old(promiseResponseMap)
                         then M.Step(opts, old(State()), M.Response(sender, task, failed)) else old(State())
    {
      hide UniqueIds, Nodes, M.Run, M.Settle;
      if task.taskId in promiseResponseMap {
        ghost var before := State();
        Answer(task, sender);
        Settle(task, failed);
        Handled(M.Response(sender, task, failed), before);
      }
    }

    /** The promise is resolved or rejected, and the worker node remembered for it may get its next task. */
    method Settle(task: Task, failed: bool)
      requires Valid() && task.taskId in promiseResponseMap
      modifies this, workerNodes
      ensures Valid() && workerNodes == old(workerNodes) && events == old(events)
      ensures State() == M.Settle(opts, old(State()), task, failed)
    {
      hide UniqueIds, Nodes, M.AfterResponse;
      settled := settled + [task];
      var workerNodeKey := promiseResponseMap[task.taskId];
      promiseResponseMap := promiseResponseMap - {task.taskId};
      AfterResponse(workerNodeKey, failed);
    }

    ghost method Answer(task: Task, sender: nat)
      requires Valid() && sender < |workerNodes|
      modifies workerNodes[sender]
      ensures Valid() && Nodes() == old(Nodes())[sender := M.Answered(old(Nodes())[sender], task)]
    {
      ghost var ns := Nodes();
      workerNodes[sender].running := workerNodes[sender].running - multiset{task};
      assert Nodes() == ns[sender := M.Answered(ns[sender], task)];
    }

    method AfterResponse(workerNodeKey: nat, failed: bool)
      requires Valid() && workerNodeKey < |workerNodes|
      modifies workerNodes
      ensures Valid() && Nodes() == M.AfterResponse(opts, old(Nodes()), workerNodeKey, failed)
    {
      hide UniqueIds, Nodes, C.Cascaded, M.DequeueAndExecute, M.CountAnswer;
      UpdateTaskStatisticsWorkerUsage(workerNodeKey, failed);
      if opts.enableTasksQueue && |workerNodes[workerNodeKey].tasksQueue| > 0 &&
         workerNodes[workerNodeKey].executing < opts.concurrency {
        DequeueAndExecute(workerNodeKey);
      }
    }

    method UpdateTaskStatisticsWorkerUsage(k: nat, failed: bool)
      requires Valid() && k < |workerNodes|
      modifies workerNodes[k]
      ensures Valid() && Nodes() == old(Nodes())[k := M.CountAnswer(old(Nodes())[k], failed)]
    {
      hide UniqueIds;
      ghost var ns := Nodes();
      workerNodes[k].CountAnswer(failed);
      assert Nodes() == ns[k := M.CountAnswer(ns[k], failed)];
    }

    method DequeueAndExecute(k: nat)
      requires Valid() && k < |workerNodes| && workerNodes[k].tasksQueue != []
      modifies workerNodes
      ensures Valid() && Nodes() == M.DequeueAndExecute(opts, old(Nodes()), k)
    {
      hide UniqueIds, Nodes, C.Cascaded, C.ExecuteTask, M.DequeueTask;
      var task := workerNodes[k].DequeueTask(this);
      ExecuteTask(k, task.value);
    }

    /** A timer set by startOnEmptyQueue goes off. */
    method Wake(k: nat)
      requires Valid() && Reached() && M.Enabled(State(), M.Tick(k))
      modifies this, workerNodes
      ensures Valid() && Reached() && workerNodes == old(workerNodes)
      ensures State() == M.Step(opts, old(State()), M.Tick(k))
    {
      hide UniqueIds, Nodes, M.Run, M.StartOnEmptyQueue;
      ghost var before := State();
      WakeUp(k);
      workerNodes[k].StartOnEmptyQueue(this);
      Handled(M.Tick(k), before);
    }

    ghost method WakeUp(k: nat)
      requires Valid() && k < |workerNodes| && workerNodes[k].asleep > 0
      modifies workerNodes[k]
      ensures Valid()
      ensures Nodes() == old(Nodes())[k := old(Nodes())[k].(asleep := old(Nodes())[k].asleep - 1)]
    {
      ghost var ns := Nodes();
      workerNodes[k].asleep := workerNodes[k].asleep - 1;
      assert Nodes() == ns[k := ns[k].(asleep := ns[k].asleep - 1)];
    }

    /** The flush of a worker's queue ends, whatever stealing does meanwhile, and leaves nothing for the clear. */
    method FlushTasksQueue(k: nat)
      requires Valid() && Reached() && k < |workerNodes|
      modifies this, workerNodes
      ensures Valid() && Reached() && workerNodes == old(workerNodes)
      ensures Nodes() == F.FlushTasksQueue(opts, old(Nodes()), k)
      ensures State() == old(State()).(nodes := Nodes())
    {
      hide UniqueIds, Nodes, M.Run, M.DequeueAndExecute, Total;
      while |workerNodes[k].tasksQueue| > 0
        invariant Valid() && Reached() && workerNodes == old(workerNodes)
        invariant F.FlushTasksQueue(opts, Nodes(), k) == F.FlushTasksQueue(opts, old(Nodes()), k)
        invariant State() == old(State()).(nodes := Nodes())
        decreases Total(Nodes(), Queued)
      {
        ghost var before := State();
        F.FlushOneShrinks(opts, Nodes(), k);
        DequeueAndExecute(k);
        Handled(M.Flush(k), before);
      }
      assert workerNodes[k].tasksQueue == [];
    }

    /** The reduce over the nodes: seeded with node 0, ready or not. */
    method RedistributionTarget() returns (target: nat)
      requires |workerNodes| > 0
      ensures target == M.RedistributionTarget(Nodes(), |workerNodes|)
    {
      hide Nodes;
      target := 0;
      for i := 0 to |workerNodes|
        invariant target == M.RedistributionTarget(Nodes(), i)
      {
        if workerNodes[i].ready && |workerNodes[i].tasksQueue| < |workerNodes[target].tasksQueue| {
          target := i;
        }
      }
    }

    method RedistributeOne(k: nat)
      requires Valid() && k < |workerNodes| && workerNodes[k].tasksQueue != []
      modifies workerNodes
      ensures Valid() && Nodes() == M.RedistributeOne(opts, old(Nodes()), k)
    {
      hide UniqueIds, Nodes, C.Cascaded, C.PlaceTask, M.DequeueTask, M.RedistributionTarget;
      var target := RedistributionTarget();
      var task := workerNodes[k].DequeueTask(this);
      PlaceTask(target, task.value);
    }

    /** The loop as far as its first `limit` iterations, whether it ends or not. */
    method RedistributeAtMost(k: nat, limit: nat)
      requires Valid() && Reached() && k < |workerNodes|
      modifies this, workerNodes
      ensures Valid() && Reached() && workerNodes == old(workerNodes)
      ensures State() == old(State()).(nodes := R.Iterate(opts, old(Nodes()), k, limit))
    {
      hide UniqueIds, Nodes, M.Run, M.RedistributeOne, R.Iterate, R.Ends;
      var left := limit;
      while left > 0 && |workerNodes[k].tasksQueue| > 0
        invariant Valid() && Reached() && workerNodes == old(workerNodes)
        invariant R.Iterate(opts, Nodes(), k, left) == R.Iterate(opts, old(Nodes()), k, limit)
        invariant State() == old(State()).(nodes := Nodes())
        decreases left
      {
        ghost var before := State();
        IterateUnfolds(opts, Nodes(), k, left);
        RedistributeOne(k);
        left := left - 1;
        Handled(M.Redistribute(k), before);
      }
      IterateUnfolds(opts, Nodes(), k, left);
    }

    /**
      The whole loop, where it ends: as it does for every failed worker but the first, and for that
      one if and only if the others have room for its tasks (FirstWorker.FirstEndsExactly).
     */
    method RedistributeQueuedTasks(k: nat)
      requires Valid() && Reached() && k < |workerNodes|
      requires R.Ends(opts, Nodes(), k)
        || (!workerNodes[k].ready && (0 < k || (opts.enableTasksQueue && W.HasRoom(opts, Nodes()))))
      modifies this, workerNodes
      ensures Valid() && Reached() && workerNodes == old(workerNodes) && workerNodes[k].tasksQueue == []
      ensures State() == old(State()).(nodes := Nodes())
      ensures exists fuel: nat :: Nodes() == R.Iterate(opts, old(Nodes()), k, fuel)
    {
      hide UniqueIds, Nodes, M.Run, M.RedistributeOne, R.Iterate, R.Ends, W.HasRoom, C.Cascaded;
      ghost var fuel := FuelFor(opts, State(), events, k);
      ghost var all, was := fuel, Nodes();
      while |workerNodes[k].tasksQueue| > 0
        invariant Valid() && Reached() && workerNodes == old(workerNodes)
        invariant R.Iterate(opts, was, k, all)[k].queue == []
        invariant R.Iterate(opts, Nodes(), k, fuel) == R.Iterate(opts, was, k, all)
        invariant State() == old(State()).(nodes := Nodes())
        decreases fuel
      {
        ghost var before := State();
        IterateUnfolds(opts, Nodes(), k, fuel);
        RedistributeOne(k);
        fuel := fuel - 1;
        Handled(M.Redistribute(k), before);
      }
      IterateUnfolds(opts, Nodes(), k, fuel);
    }

    method NewWorkerNode(workerId: nat, ready: bool) returns (n: WorkerNode)
      ensures fresh(n) && n.id == workerId && SetUp(|workerNodes|, n) && n.Value() == NewNode(ready)
    {
      n := new WorkerNode(workerId, opts.size, |workerNodes|);
      n.ready := ready;
      if opts.StealsOnEmptyQueue() {
        n.onEmptyQueue := this;
      }
      if opts.StealsOnBackPressure() {
        n.onBackPressure := this;
      }
    }

    /** A worker node is created, at start or later, and set up with the callbacks of the options. */
    method CreateAndSetupWorkerNode(workerId: nat, ready: bool)
      requires Valid() && Reached() && forall n :: n in workerNodes ==> n.id != workerId
      modifies this
      ensures Valid() && Reached() && |workerNodes| == |old(workerNodes)| + 1
      ensures workerNodes == old(workerNodes) + [workerNodes[|old(workerNodes)|]] && fresh(workerNodes[|old(workerNodes)|])
      ensures State() == M.Step(opts, old(State()), M.AddNode(ready))
    {
      hide M.Run, M.SubmitTask, M.AfterResponse, M.Wake, M.RedistributeOne, M.DequeueAndExecute;
      ghost var before := State();
      var n := NewWorkerNode(workerId, ready);
      workerNodes := workerNodes + [n];
      assert Nodes() == before.nodes + [NewNode(ready)];
      Handled(M.AddNode(ready), before);
    }

    method SetReady(k: nat, ready: bool)
      requires Valid() && Reached() && k < |workerNodes|
      modifies this, workerNodes[k]
      ensures Valid() && Reached() && workerNodes == old(workerNodes)
      ensures State() == M.Step(opts, old(State()), M.SetReady(k, ready))
    {
      hide M.Run, M.SubmitTask, M.AfterResponse, M.Wake, M.RedistributeOne, M.DequeueAndExecute, UniqueIds;
      ghost var before := State();
      workerNodes[k].ready := ready;
      assert Nodes() == before.nodes[k := before.nodes[k].(ready := ready)];
      Handled(M.SetReady(k, ready), before);
    }
  }

  // ---- What the theorems about runs say of a pool object ----

  /**
    Whatever its methods were called with so far: the promises waiting in the map are those of the
    tasks that wait in a queue or run at a worker; a node with queued tasks counts its quota as
    executing; both guards are down between events, one timer sleeping for each node with a steal loop.
   */
  lemma BetweenEvents(p: Pool, id: nat, n: WorkerNode)
    requires p.Valid() && p.Reached() && p.opts.enableTasksQueue && n in p.workerNodes
    ensures id in p.promiseResponseMap <==>
      exists k: nat, t :: k < |p.workerNodes| && t in Live(p.Nodes()[k]) && t.taskId == id
    ensures n.tasksQueue != [] ==> n.executing >= p.opts.concurrency
    ensures !n.onBackPressureStarted && n.asleep == if n.onEmptyQueueCount > 0 then 1 else 0
  {
    E.ExactlyOnceDispatch(p.opts, 0, p.events, p.State());
    var k: nat :| k < |p.workerNodes| && p.workerNodes[k] == n;
    Q.QuotaAndStealLoops(p.opts, 0, p.events, p.State());
    if id in p.promiseResponseMap {
      var t, j: nat :| E.LiveAt(p.State(), t, j) && t.taskId == id;
      assert j < |p.workerNodes| && t in Live(p.Nodes()[j]) && t.taskId == id;
    } else {
      forall j: nat, t | j < |p.workerNodes| && t in Live(p.Nodes()[j]) ensures t.taskId != id {
        assert E.LiveAt(p.State(), t, j);
      }
    }
  }
}
