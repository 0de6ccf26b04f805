/**
  The pool's task scheduler as a state machine (src/pools/abstract-pool.ts): each event is one
  synchronous run of pool code, up to the point where it returns to the event loop.
 */
module PoolMachine {
  import opened Wrappers
  import opened WorkerNodes
  import opened Cascade

  /** A task accepted by execute, with the worker node key chosen for it. */
  datatype Assignment = Assignment(key: nat, task: Task)

  datatype State = State(
    nodes: seq<Node>,
    // promiseResponseMap: the worker node key remembered for the id of each unsettled task
    pending: map<nat, nat>,
    // the history of accepted tasks, and of the tasks whose promise was resolved or rejected
    accepted: seq<Assignment>,
    settled: seq<Task>)

  datatype Event =
    | Execute(key: nat, task: Task)
    | Response(key: nat, task: Task, failed: bool)
    | StrayResponse(taskId: nat, failed: bool)
    | Tick(key: nat)
    | Redistribute(key: nat)
    | Flush(key: nat)
    | AddNode(ready: bool)
    | SetReady(key: nat, ready: bool)

  function Init(n: nat): State {
    State(seq(n, i => NewNode(true)), map[], [], [])
  }

  // ---- Steps on the nodes ----

  function DequeueTask(o: Options, ns: seq<Node>, k: nat): (r: Taken)
    requires k < |ns|
    ensures Cascaded(o, ns, r.nodes, multiset{}, AsMultiset(r.task))
    ensures ns[k].queue != [] ==> r.task == Some(ns[k].queue[0])
  {
    if ns[k].queue == [] then
      Taken(None, EmptiedQueue(o, ns, k))
    else
      var shifted := ns[k := ns[k].(queue := ns[k].queue[1..])];
      Shifted(o, ns, k);
      CascadedThen(o, ns, shifted, EmptiedQueue(o, shifted, k), multiset{}, multiset{ns[k].queue[0]});
      Taken(Some(ns[k].queue[0]), EmptiedQueue(o, shifted, k))
  }

  lemma Shifted(o: Options, ns: seq<Node>, k: nat)
    requires k < |ns| && ns[k].queue != []
    ensures Cascaded(o, ns, ns[k := ns[k].(queue := ns[k].queue[1..])], multiset{}, multiset{ns[k].queue[0]})
    ensures WorkConserving(o, ns) ==> WorkConserving(o, ns[k := ns[k].(queue := ns[k].queue[1..])])
  {
    var n := ns[k].(queue := ns[k].queue[1..]);
    assert ns[k].queue == [ns[k].queue[0]] + n.queue;
    CascadedUpdate(o, ns, k, n, multiset{}, multiset{ns[k].queue[0]});
    if WorkConserving(o, ns) {
      WorkConservingUpdate(o, ns, k, n);
    }
  }

  function DequeueAndExecute(o: Options, ns: seq<Node>, k: nat): (r: seq<Node>)
    requires k < |ns| && ns[k].queue != []
    ensures |r| == |ns|
  {
    var taken := DequeueTask(o, ns, k);
    ExecuteTask(taken.nodes, k, taken.task.value)
  }

  function CountAnswer(n: Node, failed: bool): Node {
    var executing := if n.executing > 0 then n.executing - 1 else 0;
    if failed then n.(executing := executing, failed := n.failed + 1)
    else n.(executing := executing, executed := n.executed + 1)
  }

  function AfterResponse(o: Options, ns: seq<Node>, k: nat, failed: bool): (r: seq<Node>)
    requires k < |ns|
    ensures |r| == |ns|
  {
    var counted := ns[k := CountAnswer(ns[k], failed)];
    if o.enableTasksQueue && counted[k].queue != [] && counted[k].executing < o.concurrency then
      DequeueAndExecute(o, counted, k)
    else
      counted
  }

  /** One more attempt of node k to steal: the count goes up and onEmptyQueue, if set, is called. */
  function StealRound(o: Options, ns: seq<Node>, k: nat): (r: seq<Node>)
    requires k < |ns|
    ensures |r| == |ns|
  {
    var started := ns[k := ns[k].(emptyQueueCount := ns[k].emptyQueueCount + 1)];
    if o.StealsOnEmptyQueue() then TaskStealingOnEmptyQueue(o, started, k) else started
  }

  function StartOnEmptyQueue(o: Options, ns: seq<Node>, k: nat): (r: seq<Node>)
    requires k < |ns|
    ensures |r| == |ns|
  {
    if ns[k].emptyQueueCount > 0 && (ns[k].executing > 0 || ns[k].queue != []) then
      ns[k := ns[k].(emptyQueueCount := 0)]
    else
      var stolen := StealRound(o, ns, k);
      stolen[k := stolen[k].(asleep := stolen[k].asleep + 1)]
  }

  /** A sleeping continuation of node k wakes up. */
  function Wake(o: Options, ns: seq<Node>, k: nat): (r: seq<Node>)
    requires k < |ns| && ns[k].asleep > 0
    ensures |r| == |ns|
  {
    StartOnEmptyQueue(o, ns[k := ns[k].(asleep := ns[k].asleep - 1)], k)
  }

  /** The first node, in key order, that beats the node kept so far: the reduce of redistributeQueuedTasks. */
  function RedistributionTarget(ns: seq<Node>, n: nat): (r: nat)
    requires 0 < |ns| && n <= |ns|
    ensures r < |ns|
  {
    if n == 0 then 0
    else
      var best := RedistributionTarget(ns, n - 1);
      if ns[n - 1].ready && |ns[n - 1].queue| < |ns[best].queue| then n - 1 else best
  }

  function RedistributeOne(o: Options, ns: seq<Node>, k: nat): (r: seq<Node>)
    requires k < |ns| && ns[k].queue != []
    ensures |r| == |ns|
  {
    var target := RedistributionTarget(ns, |ns|);
    var taken := DequeueTask(o, ns, k);
    PlaceTask(o, taken.nodes, target, taken.task.value)
  }

  // ---- Events ----

  function Answered(n: Node, t: Task): Node {
    n.(running := n.running - multiset{t})
  }

  /** When an event can happen: what callers, workers and timers do, not what the pool decides. */
  ghost predicate Enabled(s: State, e: Event) {
    match e
    case Execute(k, t) => k < |s.nodes| && forall a :: a in s.accepted ==> a.task.taskId != t.taskId
    case Response(k, t, _) => k < |s.nodes| && t in s.nodes[k].running
    case StrayResponse(id, _) => id !in s.pending
    case Tick(k) => k < |s.nodes| && s.nodes[k].asleep > 0
    case Redistribute(k) => k < |s.nodes| && s.nodes[k].queue != []
    case Flush(k) => k < |s.nodes| && s.nodes[k].queue != []
    case AddNode(_) => true
    case SetReady(k, _) => k < |s.nodes|
  }

  function SubmitTask(o: Options, ns: seq<Node>, k: nat, t: Task): (r: seq<Node>)
    requires k < |ns|
    ensures |r| == |ns|
  {
    if !o.enableTasksQueue then ExecuteTask(ns, k, t) else PlaceTask(o, ns, k, t)
  }

  function Settle(o: Options, s: State, t: Task, failed: bool): State {
    if t.taskId in s.pending && s.pending[t.taskId] < |s.nodes| then
      var k := s.pending[t.taskId];
      s.(nodes := AfterResponse(o, s.nodes, k, failed),
         pending := s.pending - {t.taskId},
         settled := s.settled + [t])
    else
      s
  }

  function Step(o: Options, s: State, e: Event): State
    requires Enabled(s, e)
  {
    match e
    case Execute(k, t) =>
      s.(nodes := SubmitTask(o, s.nodes, k, t),
         pending := s.pending[t.taskId := k],
         accepted := s.accepted + [Assignment(k, t)])
    case Response(k, t, failed) =>
      Settle(o, s.(nodes := s.nodes[k := Answered(s.nodes[k], t)]), t, failed)
    case StrayResponse(_, _) =>
      s
    case Tick(k) =>
      s.(nodes := Wake(o, s.nodes, k))
    case Redistribute(k) =>
      s.(nodes := RedistributeOne(o, s.nodes, k))
    case Flush(k) =>
      s.(nodes := DequeueAndExecute(o, s.nodes, k))
    case AddNode(ready) =>
      s.(nodes := s.nodes + [NewNode(ready)])
    case SetReady(k, ready) =>
      s.(nodes := s.nodes[k := s.nodes[k].(ready := ready)])
  }

  // ---- Runs ----

  /** r is reached from s by the events in order. */
  ghost predicate Run(o: Options, s: State, events: seq<Event>, r: State)
    decreases |events|
  {
    if events == [] then r == s
    else
      var last := |events| - 1;
      exists m :: Run(o, s, events[..last], m) && Enabled(m, events[last]) && r == Step(o, m, events[last])
  }

  lemma RunThen(o: Options, s: State, events: seq<Event>, m: State, e: Event)
    requires Run(o, s, events, m) && Enabled(m, e)
    ensures Run(o, s, events + [e], Step(o, m, e))
  {
    assert (events + [e])[..|events|] == events;
  }
}
