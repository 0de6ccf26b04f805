/**
  Task stealing: the synchronous recursion between a worker node's queue operations and the pool's
  stealing callbacks (src/pools/worker-node.ts:81-134, 192-204; src/pools/abstract-pool.ts:1430-1491).

  enqueueTask may call onBackPressure, which pops tasks of the full node and executes or enqueues
  them elsewhere; popTask and dequeueTask may start onEmptyQueue, which pops a task of another node
  and executes or enqueues it on the emptied one; and so on. Only the two guards of each node
  stop the recursion. Each function below maps the nodes of the pool before one of these calls to
  the nodes after it.
 */
module Cascade {
  import opened Wrappers
  import opened WorkerNodes

  // ---- Ordering nodes by queue length, as Array.prototype.sort does (it is stable) ----

  predicate Before(ns: seq<Node>, descending: bool, a: nat, b: nat)
    requires a < |ns| && b < |ns|
  {
    if descending then |ns[a].queue| > |ns[b].queue| else |ns[a].queue| < |ns[b].queue|
  }

  function Insert(ns: seq<Node>, descending: bool, order: seq<nat>, key: nat): (r: seq<nat>)
    requires key < |ns| && forall i :: 0 <= i < |order| ==> order[i] < |ns|
    ensures |r| == |order| + 1 && forall i :: 0 <= i < |r| ==> r[i] < |ns|
  {
    var last := |order| - 1;
    if order != [] && Before(ns, descending, key, order[last]) then
      Insert(ns, descending, order[..last], key) + [order[last]]
    else
      order + [key]
  }

  /** The keys 0..n in the order in which sort arranges the nodes. */
  function KeysByQueued(ns: seq<Node>, descending: bool, n: nat): (r: seq<nat>)
    requires n <= |ns|
    ensures |r| == n && forall i :: 0 <= i < n ==> r[i] < |ns|
  {
    if n == 0 then [] else Insert(ns, descending, KeysByQueued(ns, descending, n - 1), n - 1)
  }

  // ---- Executing and queueing ----

  predicate ShallExecuteTask(o: Options, ns: seq<Node>, k: nat)
    requires k < |ns|
  {
    ns[k].queue == [] && ns[k].executing < o.concurrency
  }

  function Send(n: Node, t: Task): Node {
    n.(executing := n.executing + 1, sent := n.sent + [t], running := n.running + multiset{t})
  }

  function ExecuteTask(ns: seq<Node>, k: nat, t: Task): seq<Node>
    requires k < |ns|
  {
    ns[k := Send(ns[k], t)]
  }

  /** A node with waiting tasks counts at least its quota as executing. */
  ghost predicate WorkConserving(o: Options, ns: seq<Node>) {
    forall k {:trigger Busy(o, ns[k])} :: 0 <= k < |ns| ==> Busy(o, ns[k])
  }

  predicate Busy(o: Options, n: Node) {
    n.queue != [] ==> o.concurrency <= n.executing
  }

  lemma WorkConservingUpdate(o: Options, ns: seq<Node>, k: nat, n: Node)
    requires k < |ns| && WorkConserving(o, ns) && (Busy(o, ns[k]) ==> Busy(o, n))
    ensures WorkConserving(o, ns[k := n])
  {
    var r := ns[k := n];
    forall j | 0 <= j < |r| ensures Busy(o, r[j]) {
      assert Busy(o, ns[j]);
    }
  }

  /** From ns to r a cascade took `given` into the pool, handed `taken` to its caller, and kept every other task. */
  ghost predicate Cascaded(o: Options, ns: seq<Node>, r: seq<Node>, given: multiset<Task>, taken: multiset<Task>) {
    && AllGrew(o.concurrency, ns, r)
    && Sum(r, Live) + taken == Sum(ns, Live) + given
  }

  function AsMultiset(t: Option<Task>): multiset<Task> {
    if t.Some? then multiset{t.value} else multiset{}
  }

  /** A cascade that only moves tasks about may follow. */
  lemma CascadedThen(o: Options, a: seq<Node>, b: seq<Node>, c: seq<Node>, given: multiset<Task>, taken: multiset<Task>)
    requires Cascaded(o, a, b, given, taken) && Cascaded(o, b, c, multiset{}, multiset{})
    ensures Cascaded(o, a, c, given, taken)
  {
    AllGrewTransitive(o.concurrency, a, b, c);
    assert Sum(b, Live) + multiset{} == Sum(b, Live) && Sum(c, Live) + multiset{} == Sum(c, Live);
  }

  /** What was taken out was given back. */
  lemma CascadedMove(o: Options, a: seq<Node>, b: seq<Node>, c: seq<Node>, moved: multiset<Task>)
    requires Cascaded(o, a, b, multiset{}, moved) && Cascaded(o, b, c, moved, multiset{})
    ensures Cascaded(o, a, c, multiset{}, multiset{})
  {
    AllGrewTransitive(o.concurrency, a, b, c);
  }

  lemma LiveUpdate(ns: seq<Node>, k: nat, n: Node, given: multiset<Task>, taken: multiset<Task>)
    requires k < |ns| && Live(n) + taken == Live(ns[k]) + given
    ensures Sum(ns[k := n], Live) + taken == Sum(ns, Live) + given
  {
    SumUpdate(ns, k, n, Live);
    var before, after, mine := Sum(ns, Live), Sum(ns[k := n], Live), Live(ns[k]);
    calc {
      (after + taken) + mine;
      (after + mine) + taken;
      (before + Live(n)) + taken;
      before + (mine + given);
      (before + given) + mine;
    }
    Cancel(after + taken, before + given, mine);
  }

  /** Changing one node. */
  lemma CascadedUpdate(o: Options, ns: seq<Node>, k: nat, n: Node, given: multiset<Task>, taken: multiset<Task>)
    requires k < |ns|
    requires Grew(o.concurrency, ns[k], n) && Live(n) + taken == Live(ns[k]) + given
    ensures Cascaded(o, ns, ns[k := n], given, taken)
  {
    LiveUpdate(ns, k, n, given, taken);
    forall j | 0 <= j < |ns| ensures Grew(o.concurrency, ns[j], ns[k := n][j]) {
    }
  }

  lemma Pushed(o: Options, ns: seq<Node>, k: nat, t: Task)
    requires k < |ns|
    ensures var pushed := ns[k := ns[k].(queue := ns[k].queue + [t])];
      && Cascaded(o, ns, pushed, multiset{t}, multiset{})
      && Fuel(pushed) == Fuel(ns)
      && (WorkConserving(o, ns) && !ShallExecuteTask(o, ns, k) ==> WorkConserving(o, pushed))
  {
    var n := ns[k].(queue := ns[k].queue + [t]);
    CascadedUpdate(o, ns, k, n, multiset{t}, multiset{});
    TotalUpdate(ns, k, n, NodeFuel);
    if WorkConserving(o, ns) && !ShallExecuteTask(o, ns, k) {
      WorkConservingUpdate(o, ns, k, n);
    }
  }

  lemma Executed(o: Options, ns: seq<Node>, k: nat, t: Task)
    requires k < |ns| && ShallExecuteTask(o, ns, k)
    ensures Cascaded(o, ns, ExecuteTask(ns, k, t), multiset{t}, multiset{})
    ensures WorkConserving(o, ns) ==> WorkConserving(o, ExecuteTask(ns, k, t))
  {
    CascadedUpdate(o, ns, k, Send(ns[k], t), multiset{t}, multiset{});
    if WorkConserving(o, ns) {
      WorkConservingUpdate(o, ns, k, Send(ns[k], t));
    }
  }

  lemma CountedSteal(o: Options, ns: seq<Node>, k: nat)
    requires k < |ns|
    ensures var counted := ns[k := ns[k].(stolen := ns[k].stolen + 1)];
      && Cascaded(o, ns, counted, multiset{}, multiset{})
      && (WorkConserving(o, ns) ==> WorkConserving(o, counted))
  {
    var n := ns[k].(stolen := ns[k].stolen + 1);
    CascadedUpdate(o, ns, k, n, multiset{}, multiset{});
    if WorkConserving(o, ns) {
      WorkConservingUpdate(o, ns, k, n);
    }
  }

  lemma RaisedGuard(o: Options, ns: seq<Node>, k: nat)
    requires k < |ns| && !ns[k].backPressureStarted
    ensures var started := ns[k := ns[k].(backPressureStarted := true)];
      && Fuel(started) < Fuel(ns)
      && (WorkConserving(o, ns) ==> WorkConserving(o, started))
  {
    var n := ns[k].(backPressureStarted := true);
    TotalUpdate(ns, k, n, NodeFuel);
    if WorkConserving(o, ns) {
      WorkConservingUpdate(o, ns, k, n);
    }
  }

  lemma StartingLoop(o: Options, ns: seq<Node>, k: nat)
    requires k < |ns| && ns[k].emptyQueueCount == 0
    ensures var started := ns[k := ns[k].(emptyQueueCount := 1)];
      && Fuel(started) < Fuel(ns)
      && (WorkConserving(o, ns) ==> WorkConserving(o, started))
  {
    var n := ns[k].(emptyQueueCount := 1);
    TotalUpdate(ns, k, n, NodeFuel);
    if WorkConserving(o, ns) {
      WorkConservingUpdate(o, ns, k, n);
    }
  }

  lemma Popped(o: Options, ns: seq<Node>, k: nat)
    requires k < |ns| && ns[k].queue != []
    ensures var last := |ns[k].queue| - 1;
      var popped := ns[k := ns[k].(queue := ns[k].queue[..last])];
      && Cascaded(o, ns, popped, multiset{}, multiset{ns[k].queue[last]})
      && Fuel(popped) == Fuel(ns)
      && (WorkConserving(o, ns) ==> WorkConserving(o, popped))
  {
    var last := |ns[k].queue| - 1;
    var n := ns[k].(queue := ns[k].queue[..last]);
    assert ns[k].queue == n.queue + [ns[k].queue[last]];
    CascadedUpdate(o, ns, k, n, multiset{}, multiset{ns[k].queue[last]});
    TotalUpdate(ns, k, n, NodeFuel);
    if WorkConserving(o, ns) {
      WorkConservingUpdate(o, ns, k, n);
    }
  }

  /** A callback run with node k's guard raised changes the pool as if the guard had been down throughout. */
  lemma GuardedCallback(o: Options, ns: seq<Node>, k: nat, stolen: seq<Node>)
    requires k < |ns| && !ns[k].backPressureStarted
    requires Cascaded(o, ns[k := ns[k].(backPressureStarted := true)], stolen, multiset{}, multiset{})
    ensures var r := stolen[k := stolen[k].(backPressureStarted := false)];
      && Cascaded(o, ns, r, multiset{}, multiset{})
      && (WorkConserving(o, stolen) ==> WorkConserving(o, r))
  {
    var started := ns[k := ns[k].(backPressureStarted := true)];
    var r := stolen[k := stolen[k].(backPressureStarted := false)];
    SumUnchanged(ns, k, started[k], Live);
    SumUnchanged(stolen, k, r[k], Live);
    forall j | 0 <= j < |ns| ensures Grew(o.concurrency, ns[j], r[j]) {
      assert Grew(o.concurrency, started[j], stolen[j]);
    }
    if WorkConserving(o, stolen) {
      WorkConservingUpdate(o, stolen, k, r[k]);
    }
  }

  /** A steal loop that starts at node k ends up with its continuation asleep. */
  lemma StartedLoop(o: Options, ns: seq<Node>, k: nat, stolen: seq<Node>)
    requires k < |ns| && ns[k].emptyQueueCount == 0
    requires Cascaded(o, ns[k := ns[k].(emptyQueueCount := 1)], stolen, multiset{}, multiset{})
    ensures var r := stolen[k := stolen[k].(asleep := stolen[k].asleep + 1)];
      && Cascaded(o, ns, r, multiset{}, multiset{})
      && (WorkConserving(o, stolen) ==> WorkConserving(o, r))
  {
    var started := ns[k := ns[k].(emptyQueueCount := 1)];
    var r := stolen[k := stolen[k].(asleep := stolen[k].asleep + 1)];
    SumUnchanged(ns, k, started[k], Live);
    SumUnchanged(stolen, k, r[k], Live);
    forall j | 0 <= j < |ns| ensures Grew(o.concurrency, ns[j], r[j]) {
      assert Grew(o.concurrency, started[j], stolen[j]);
    }
    if WorkConserving(o, stolen) {
      WorkConservingUpdate(o, stolen, k, r[k]);
    }
  }

  datatype Taken = Taken(task: Option<Task>, nodes: seq<Node>)

  function EnqueueTask(o: Options, ns: seq<Node>, k: nat, t: Task): (r: seq<Node>)
    requires k < |ns|
    ensures Cascaded(o, ns, r, multiset{t}, multiset{})
    ensures WorkConserving(o, ns) && !ShallExecuteTask(o, ns, k) ==> WorkConserving(o, r)
    decreases Fuel(ns), 1
  {
    var pushed := ns[k := ns[k].(queue := ns[k].queue + [t])];
    Pushed(o, ns, k, t);
    if o.StealsOnBackPressure() && |pushed[k].queue| >= o.size && !pushed[k].backPressureStarted then
      var started := pushed[k := pushed[k].(backPressureStarted := true)];
      RaisedGuard(o, pushed, k);
      var stolen := TasksStealingOnBackPressure(o, started, k);
      GuardedCallback(o, pushed, k, stolen);
      var lowered := stolen[k := stolen[k].(backPressureStarted := false)];
      CascadedThen(o, ns, pushed, lowered, multiset{t}, multiset{});
      lowered
    else
      pushed
  }

  function PopTask(o: Options, ns: seq<Node>, k: nat): (r: Taken)
    requires k < |ns|
    ensures Cascaded(o, ns, r.nodes, multiset{}, AsMultiset(r.task))
    ensures WorkConserving(o, ns) ==> WorkConserving(o, r.nodes)
    ensures ns[k].queue != [] ==> r.task == Some(ns[k].queue[|ns[k].queue| - 1])
    decreases Fuel(ns), 1
  {
    if ns[k].queue == [] then
      Taken(None, EmptiedQueue(o, ns, k))
    else
      var last := |ns[k].queue| - 1;
      var popped := ns[k := ns[k].(queue := ns[k].queue[..last])];
      Popped(o, ns, k);
      CascadedThen(o, ns, popped, EmptiedQueue(o, popped, k), multiset{}, multiset{ns[k].queue[last]});
      Taken(Some(ns[k].queue[last]), EmptiedQueue(o, popped, k))
  }

  /** The common end of popTask and dequeueTask. */
  function EmptiedQueue(o: Options, ns: seq<Node>, k: nat): (r: seq<Node>)
    requires k < |ns|
    ensures Cascaded(o, ns, r, multiset{}, multiset{})
    ensures WorkConserving(o, ns) ==> WorkConserving(o, r)
    decreases Fuel(ns), 0
  {
    if o.StealsOnEmptyQueue() && ns[k].queue == [] && ns[k].emptyQueueCount == 0 then
      var started := ns[k := ns[k].(emptyQueueCount := 1)];
      StartingLoop(o, ns, k);
      var stolen := TaskStealingOnEmptyQueue(o, started, k);
      StartedLoop(o, ns, k, stolen);
      stolen[k := stolen[k].(asleep := stolen[k].asleep + 1)]
    else
      ns
  }

  /** Executes the task now when the node has room for it, and queues it otherwise. */
  function PlaceTask(o: Options, ns: seq<Node>, k: nat, t: Task): (r: seq<Node>)
    requires k < |ns|
    ensures Cascaded(o, ns, r, multiset{t}, multiset{})
    ensures WorkConserving(o, ns) ==> WorkConserving(o, r)
    decreases Fuel(ns), 2
  {
    if ShallExecuteTask(o, ns, k) then
      Executed(o, ns, k, t);
      ExecuteTask(ns, k, t)
    else
      EnqueueTask(o, ns, k, t)
  }

  function StealTask(o: Options, ns: seq<Node>, source: nat, destination: nat): (r: seq<Node>)
    requires source < |ns| && destination < |ns| && ns[source].queue != []
    ensures Cascaded(o, ns, r, multiset{}, multiset{})
    ensures WorkConserving(o, ns) ==> WorkConserving(o, r)
    decreases Fuel(ns), 3
  {
    var popped := PopTask(o, ns, source);
    var t := popped.task.value;
    GrewFuel(o.concurrency, ns, popped.nodes);
    var placed := PlaceTask(o, popped.nodes, destination, t);
    CascadedMove(o, ns, popped.nodes, placed, multiset{t});
    CountedSteal(o, placed, destination);
    var counted := placed[destination := placed[destination].(stolen := placed[destination].stolen + 1)];
    CascadedThen(o, ns, placed, counted, multiset{}, multiset{});
    counted
  }

  predicate CanStealFrom(ns: seq<Node>, thief: nat, source: nat)
    requires source < |ns|
  {
    ns[source].ready && source != thief && ns[source].queue != []
  }

  function FindSource(ns: seq<Node>, thief: nat, order: seq<nat>): (r: Option<nat>)
    requires forall i :: 0 <= i < |order| ==> order[i] < |ns|
    ensures r.Some? ==> r.value < |ns| && CanStealFrom(ns, thief, r.value)
  {
    if order == [] then None
    else if CanStealFrom(ns, thief, order[0]) then Some(order[0])
    else FindSource(ns, thief, order[1..])
  }

  function TaskStealingOnEmptyQueue(o: Options, ns: seq<Node>, k: nat): (r: seq<Node>)
    requires k < |ns|
    ensures Cascaded(o, ns, r, multiset{}, multiset{})
    ensures WorkConserving(o, ns) ==> WorkConserving(o, r)
    decreases Fuel(ns), 4
  {
    var source := FindSource(ns, k, KeysByQueued(ns, true, |ns|));
    if source.Some? then StealTask(o, ns, source.value, k) else ns
  }

  function TasksStealingOnBackPressure(o: Options, ns: seq<Node>, k: nat): (r: seq<Node>)
    requires k < |ns|
    ensures Cascaded(o, ns, r, multiset{}, multiset{})
    ensures WorkConserving(o, ns) ==> WorkConserving(o, r)
    decreases Fuel(ns), 5
  {
    if o.size <= 1 then ns else StealFromFull(o, ns, k, KeysByQueued(ns, false, |ns|), 0)
  }

  /** The rest of the loop over the sorted nodes, from position i on. */
  function StealFromFull(o: Options, ns: seq<Node>, k: nat, order: seq<nat>, i: nat): (r: seq<Node>)
    requires k < |ns| && i <= |order| == |ns|
    requires forall j :: 0 <= j < |order| ==> order[j] < |ns|
    ensures Cascaded(o, ns, r, multiset{}, multiset{})
    ensures WorkConserving(o, ns) ==> WorkConserving(o, r)
    decreases Fuel(ns), 4, |order| - i
  {
    if i == |order| then ns
    else if ns[k].queue != [] && ns[order[i]].ready && order[i] != k && |ns[order[i]].queue| < o.size - 1 then
      var stolen := StealTask(o, ns, k, i);
      GrewFuel(o.concurrency, ns, stolen);
      CascadedThen(o, ns, stolen, StealFromFull(o, stolen, k, order, i + 1), multiset{}, multiset{});
      StealFromFull(o, stolen, k, order, i + 1)
    else
      StealFromFull(o, ns, k, order, i + 1)
  }

  // ---- When queueing a task does no more than that ----

  /** No node passes the test of back-pressure stealing from node k. */
  lemma {:induction false} NothingToSteal(o: Options, ns: seq<Node>, k: nat, order: seq<nat>, i: nat)
    requires k < |ns| && i <= |order| == |ns|
    requires forall j :: 0 <= j < |order| ==> order[j] < |ns|
    requires forall j :: 0 <= j < |ns| && j != k && ns[j].ready ==> |ns[j].queue| >= o.size - 1
    ensures StealFromFull(o, ns, k, order, i) == ns
    decreases |order| - i
  {
    hide Cascaded, WorkConserving, StealTask;
    if i < |order| {
      NothingToSteal(o, ns, k, order, i + 1);
    }
  }

  /** No ready node has a shorter queue than node k. */
  predicate Shortest(ns: seq<Node>, k: nat)
    requires k < |ns|
  {
    forall j :: 0 <= j < |ns| && j != k && ns[j].ready ==> |ns[k].queue| <= |ns[j].queue|
  }

  /**
    A task is queued without further ado when the node does not fill up, and when it does but no
    ready node has a shorter queue to steal into: the callback then runs for nothing.
   */
  lemma EnqueuePlain(o: Options, ns: seq<Node>, k: nat, t: Task)
    requires k < |ns|
    requires !o.StealsOnBackPressure() || o.size <= 1 || |ns[k].queue| + 1 < o.size || Shortest(ns, k)
    ensures EnqueueTask(o, ns, k, t) == ns[k := ns[k].(queue := ns[k].queue + [t])]
  {
    hide Cascaded, WorkConserving, StealFromFull;
    var pushed := ns[k := ns[k].(queue := ns[k].queue + [t])];
    if o.StealsOnBackPressure() && |pushed[k].queue| >= o.size && !pushed[k].backPressureStarted {
      var started := pushed[k := pushed[k].(backPressureStarted := true)];
      if o.size > 1 {
        NothingToSteal(o, started, k, KeysByQueued(started, false, |ns|), 0);
      }
      assert TasksStealingOnBackPressure(o, started, k) == started;
      assert started[k := started[k].(backPressureStarted := false)] == pushed;
    }
  }
}
