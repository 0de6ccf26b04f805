/**
  The steal loop of an idle worker (src/pools/worker-node.ts): what a timer does when it wakes the
  loop up, and that nothing but such a timer ever ends it.
 */
module StealLoops {
  import opened Wrappers
  import opened WorkerNodes
  import opened Cascade
  import opened PoolMachine
  import opened StealingOrder
  import Quota

  // ---- A chain of steals passes idle nodes by ----

  lemma {:induction false} PopLeaves(o: Options, ns: seq<Node>, s: nat, k: nat)
    requires s < |ns| && k < |ns| && s != k && ns[k].queue == [] && ns[s].queue != []
    ensures |PopTask(o, ns, s).nodes| == |ns| && PopTask(o, ns, s).nodes[k] == ns[k]
    decreases Fuel(ns), 0
  {
    hide Cascaded, WorkConserving, TaskStealingOnEmptyQueue, Fuel;
    var popped := ns[s := ns[s].(queue := ns[s].queue[..|ns[s].queue| - 1])];
    if o.StealsOnEmptyQueue() && popped[s].queue == [] && ns[s].emptyQueueCount == 0 {
      var started := popped[s := popped[s].(emptyQueueCount := 1)];
      StartingBurns(ns, s, popped[s].queue);
      StealLeaves(o, started, s, k);
    }
  }

  lemma StartingBurns(ns: seq<Node>, s: nat, queue: seq<Task>)
    requires s < |ns| && ns[s].emptyQueueCount == 0
    ensures var n := ns[s].(queue := queue);
      Fuel(ns[s := n][s := n.(emptyQueueCount := 1)]) < Fuel(ns)
  {
    var n := ns[s].(queue := queue, emptyQueueCount := 1);
    TotalUpdate(ns, s, n, NodeFuel);
    assert ns[s := ns[s].(queue := queue)][s := n] == ns[s := n];
  }

  lemma {:induction false} StealLeaves(o: Options, ns: seq<Node>, s: nat, k: nat)
    requires s < |ns| && k < |ns| && s != k && ns[k].queue == [] && ns[s].queue == []
    ensures |TaskStealingOnEmptyQueue(o, ns, s)| == |ns| && TaskStealingOnEmptyQueue(o, ns, s)[k] == ns[k]
    decreases Fuel(ns), 1
  {
    hide Cascaded, WorkConserving, PopTask, PlaceTask, FindSource, KeysByQueued, Fuel;
    if j: nat :| j < |ns| && CanStealFrom(ns, s, j) {
      var source := SomeFullest(ns, s);
      EmptiedStealsFromFullest(o, ns, s, source);
      PopLeaves(o, ns, source, k);
      PopLeaves(o, ns, source, s);
      PlaceOnEmpty(o, PopTask(o, ns, source).nodes, s, PopTask(o, ns, source).task.value);
    } else {
      EmptiedStealsNothing(o, ns, s);
    }
  }

  /** A task placed on a node with an empty queue stays there. */
  lemma PlaceOnEmpty(o: Options, ns: seq<Node>, k: nat, t: Task)
    requires k < |ns| && ns[k].queue == []
    ensures PlaceTask(o, ns, k, t) ==
      ns[k := if ns[k].executing < o.concurrency then Send(ns[k], t) else ns[k].(queue := [t])]
  {
    hide Cascaded, WorkConserving, EnqueueTask;
    EnqueuePlain(o, ns, k, t);
    assert [] + [t] == [t];
  }

  // ---- What a timer does ----

  /** Worker k is idle, and a timer of its steal loop fires: what Wake comes to. */
  lemma WakeIdle(o: Options, ns: seq<Node>, k: nat)
    requires k < |ns| && ns[k].asleep > 0 && ns[k].executing == 0 && ns[k].queue == [] && o.StealsOnEmptyQueue()
    ensures var n := ns[k];
      var started := ns[k := n.(asleep := n.asleep - 1, emptyQueueCount := n.emptyQueueCount + 1)];
      var m := TaskStealingOnEmptyQueue(o, started, k);
      |m| == |ns| && Wake(o, ns, k) == m[k := m[k].(asleep := m[k].asleep + 1)]
  {
    hide TaskStealingOnEmptyQueue;
    var n := ns[k];
    var woken := n.(asleep := n.asleep - 1);
    assert ns[k := woken][k := woken.(emptyQueueCount := n.emptyQueueCount + 1)]
      == ns[k := n.(asleep := n.asleep - 1, emptyQueueCount := n.emptyQueueCount + 1)];
  }

  /**
    The last task of the fullest other worker now runs at the idle worker k, counted as stolen, and the
    loop of worker k goes to sleep again, for longer. No other worker is touched, unless the source
    was left without tasks and starts to steal in its turn.
   */
  lemma TickSteals(o: Options, s: State, k: nat, source: nat)
    requires Enabled(s, Tick(k)) && o.StealsOnEmptyQueue() && 0 < o.concurrency
    requires s.nodes[k].executing == 0 && s.nodes[k].queue == [] && Fullest(s.nodes, k, source)
    ensures var n, q, r := s.nodes[k], s.nodes[source].queue, Step(o, s, Tick(k));
      var t := q[|q| - 1];
      && r == s.(nodes := r.nodes) && |r.nodes| == |s.nodes|
      && r.nodes[k] == n.(emptyQueueCount := n.emptyQueueCount + 1, stolen := n.stolen + 1,
                          executing := 1, sent := n.sent + [t], running := n.running + multiset{t})
      && (|q| > 1 || s.nodes[source].emptyQueueCount > 0 ==>
            r.nodes == s.nodes[source := s.nodes[source].(queue := q[..|q| - 1])][k := r.nodes[k]])
  {
    hide Cascaded, WorkConserving, TaskStealingOnEmptyQueue, PopTask, PlaceTask, EmptiedQueue, Wake;
    WakeIdle(o, s.nodes, k);
    var n, q := s.nodes[k], s.nodes[source].queue;
    var started := s.nodes[k := n.(asleep := n.asleep - 1, emptyQueueCount := n.emptyQueueCount + 1)];
    StartedFullest(s.nodes, started, k, source);
    EmptiedStealsFromFullest(o, started, k, source);
    PopLeaves(o, started, source, k);
    var popped := PopTask(o, started, source).nodes;
    PlaceOnEmpty(o, popped, k, q[|q| - 1]);
    if |q| > 1 || s.nodes[source].emptyQueueCount > 0 {
      PopIs(o, started, source);
    }
  }

  lemma StartedFullest(ns: seq<Node>, started: seq<Node>, k: nat, source: nat)
    requires k < |ns| && Fullest(ns, k, source)
    requires |started| == |ns| && started == ns[k := started[k]] && started[k].queue == ns[k].queue
    ensures Fullest(started, k, source)
  {
    forall j: nat | j < |ns| && j != source && CanStealFrom(started, k, j) ensures Precedes(started, true, source, j) {
      assert CanStealFrom(ns, k, j);
      assert Precedes(ns, true, source, j);
    }
  }

  lemma PopIs(o: Options, ns: seq<Node>, k: nat)
    requires k < |ns| && ns[k].queue != [] && (|ns[k].queue| > 1 || ns[k].emptyQueueCount > 0)
    ensures PopTask(o, ns, k).nodes == ns[k := ns[k].(queue := ns[k].queue[..|ns[k].queue| - 1])]
  {
  }

  /** With nothing to steal, only the count goes up. */
  lemma TickFindsNothing(o: Options, s: State, k: nat)
    requires Enabled(s, Tick(k)) && s.nodes[k].executing == 0 && s.nodes[k].queue == [] && o.StealsOnEmptyQueue()
    requires forall j: nat :: j < |s.nodes| ==> !CanStealFrom(s.nodes, k, j)
    ensures Step(o, s, Tick(k)) ==
      s.(nodes := s.nodes[k := s.nodes[k].(emptyQueueCount := s.nodes[k].emptyQueueCount + 1)])
  {
    hide Cascaded, TaskStealingOnEmptyQueue, Wake;
    WakeIdle(o, s.nodes, k);
    var n := s.nodes[k];
    var started := s.nodes[k := n.(asleep := n.asleep - 1, emptyQueueCount := n.emptyQueueCount + 1)];
    forall j: nat | j < |started| ensures !CanStealFrom(started, k, j) {
      assert !CanStealFrom(s.nodes, k, j);
    }
    EmptiedStealsNothing(o, started, k);
  }

  /** A worker that has got work meanwhile stops: no count, and one timer less. */
  lemma TickEndsLoop(o: Options, s: State, k: nat)
    requires Enabled(s, Tick(k)) && s.nodes[k].emptyQueueCount > 0
    requires s.nodes[k].executing > 0 || s.nodes[k].queue != []
    ensures Step(o, s, Tick(k)) ==
      s.(nodes := s.nodes[k := s.nodes[k].(asleep := s.nodes[k].asleep - 1, emptyQueueCount := 0)])
  {
    hide StealRound;
  }

  // ---- Nothing else ends a steal loop ----

  /** A worker in its steal loop stays in it. */
  predicate StaysInLoop(a: Node, b: Node) {
    a.emptyQueueCount > 0 ==> b.emptyQueueCount > 0
  }

  lemma CascadeStaysInLoop(o: Options, ns: seq<Node>, r: seq<Node>,
                           given: multiset<Task>, taken: multiset<Task>, k: nat)
    requires Cascaded(o, ns, r, given, taken) && k < |ns|
    ensures |r| == |ns| && StaysInLoop(ns[k], r[k])
  {
    assert Grew(o.concurrency, ns[k], r[k]);
  }

  lemma DequeueStaysInLoop(o: Options, ns: seq<Node>, k: nat, j: nat)
    requires k < |ns| && ns[k].queue != [] && j < |ns|
    ensures |DequeueTask(o, ns, k).nodes| == |ns| && StaysInLoop(ns[j], DequeueTask(o, ns, k).nodes[j])
    ensures StaysInLoop(ns[j], DequeueAndExecute(o, ns, k)[j])
  {
    hide Cascaded;
    var taken := DequeueTask(o, ns, k);
    CascadeStaysInLoop(o, ns, taken.nodes, multiset{}, AsMultiset(taken.task), j);
  }

  lemma ResponseStaysInLoop(o: Options, ns: seq<Node>, k: nat, failed: bool, j: nat)
    requires k < |ns| && j < |ns|
    ensures StaysInLoop(ns[j], AfterResponse(o, ns, k, failed)[j])
  {
    hide Cascaded, DequeueAndExecute;
    var counted := ns[k := CountAnswer(ns[k], failed)];
    if o.enableTasksQueue && counted[k].queue != [] && counted[k].executing < o.concurrency {
      DequeueStaysInLoop(o, counted, k, j);
    }
  }

  lemma RedistributeStaysInLoop(o: Options, ns: seq<Node>, k: nat, j: nat)
    requires k < |ns| && ns[k].queue != [] && j < |ns|
    ensures StaysInLoop(ns[j], RedistributeOne(o, ns, k)[j])
  {
    hide Cascaded, PlaceTask, DequeueTask;
    DequeueStaysInLoop(o, ns, k, j);
    var taken := DequeueTask(o, ns, k);
    CascadeStaysInLoop(o, taken.nodes, RedistributeOne(o, ns, k), multiset{taken.task.value}, multiset{}, j);
  }

  lemma WakeStaysInLoop(o: Options, ns: seq<Node>, k: nat, j: nat)
    requires k < |ns| && ns[k].asleep > 0 && j < |ns|
    requires j == k ==> ns[k].executing == 0 && ns[k].queue == []
    ensures StaysInLoop(ns[j], Wake(o, ns, k)[j])
  {
    hide Cascaded, TaskStealingOnEmptyQueue;
    var n := ns[k].(asleep := ns[k].asleep - 1);
    if !(n.emptyQueueCount > 0 && (n.executing > 0 || n.queue != [])) && o.StealsOnEmptyQueue() {
      var started := ns[k := n][k := n.(emptyQueueCount := n.emptyQueueCount + 1)];
      CascadeStaysInLoop(o, started, TaskStealingOnEmptyQueue(o, started, k), multiset{}, multiset{}, j);
    }
  }

  /** Only a timer that finds the worker executing or with tasks waiting ends its loop; no other event does. */
  lemma LoopGoesOn(o: Options, s: State, e: Event, k: nat)
    requires Enabled(s, e) && k < |s.nodes| && s.nodes[k].emptyQueueCount > 0
    requires e == Tick(k) ==> s.nodes[k].executing == 0 && s.nodes[k].queue == []
    ensures k < |Step(o, s, e).nodes| && Step(o, s, e).nodes[k].emptyQueueCount > 0
  {
    hide Cascaded, PlaceTask, Wake, AfterResponse, DequeueAndExecute, RedistributeOne;
    match e
    case Execute(j, t) =>
      if o.enableTasksQueue {
        CascadeStaysInLoop(o, s.nodes, PlaceTask(o, s.nodes, j, t), multiset{t}, multiset{}, k);
      }
    case Response(j, t, failed) =>
      if t.taskId in s.pending && s.pending[t.taskId] < |s.nodes| {
        ResponseStaysInLoop(o, s.nodes[j := Answered(s.nodes[j], t)], s.pending[t.taskId], failed, k);
      }
    case StrayResponse(_, _) =>
    case Tick(j) => WakeStaysInLoop(o, s.nodes, j, k);
    case Redistribute(j) => RedistributeStaysInLoop(o, s.nodes, j, k);
    case Flush(j) => DequeueStaysInLoop(o, s.nodes, j, k);
    case AddNode(_) =>
    case SetReady(_, _) =>
  }

  /**
    So in every reachable state: the loop of an idle worker has exactly one timer, before and after any
    event; and the timer of a worker that has got work ends the loop for good.
   */
  lemma LoopsOverRuns(o: Options, n: nat, events: seq<Event>, s: State, e: Event, k: nat)
    requires o.enableTasksQueue && Run(o, Init(n), events, s) && Enabled(s, e)
    requires k < |s.nodes| && s.nodes[k].emptyQueueCount > 0
    ensures var a, b := s.nodes[k], Step(o, s, e).nodes[k];
      if e == Tick(k) && (a.executing > 0 || a.queue != []) then b.emptyQueueCount == 0 && b.asleep == 0
      else b.emptyQueueCount > 0 && b.asleep == 1
  {
    hide Run, Step;
    RunThen(o, Init(n), events, s, e);
    Quota.QuotaAndStealLoops(o, n, events, s);
    Quota.QuotaAndStealLoops(o, n, events + [e], Step(o, s, e));
    if e == Tick(k) && (s.nodes[k].executing > 0 || s.nodes[k].queue != []) {
      TickEndsLoop(o, s, k);
    } else {
      LoopGoesOn(o, s, e, k);
    }
  }
}
