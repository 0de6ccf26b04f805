/**
  What every node keeps through every run. Its counter `executing` is at or above the quota while its
  queue holds work, and at most the quota (plus one if emptied queues steal); the re-entrancy guards
  are down between events; and a node never has more than one steal loop. Where tasks move, the
  counter is not the number of tasks in flight at the worker: Stalling and InFlight say what is.
 */
module Quota {
  import opened WorkerNodes
  import opened Cascade
  import opened PoolMachine

  /** The most that a counter `executing` ever shows: one more than the quota if emptied queues steal. */
  function Limit(o: Options): nat {
    o.concurrency + if o.StealsOnEmptyQueue() then 1 else 0
  }

  ghost predicate WithinLimit(o: Options, ns: seq<Node>) {
    forall k {:trigger Within(o, ns[k])} :: 0 <= k < |ns| ==> Within(o, ns[k])
  }

  predicate Within(o: Options, n: Node) {
    n.executing <= Limit(o)
  }

  /** Between events: guards down, and one sleeping continuation exactly where a steal loop is under way. */
  predicate Quiet(n: Node) {
    !n.backPressureStarted && n.asleep == StealLoop(n)
  }

  ghost predicate AllQuiet(ns: seq<Node>) {
    forall k {:trigger Quiet(ns[k])} :: 0 <= k < |ns| ==> Quiet(ns[k])
  }

  lemma GrewKeeps(o: Options, ns: seq<Node>, r: seq<Node>)
    requires AllGrew(o.concurrency, ns, r)
    ensures WithinLimit(o, ns) ==> WithinLimit(o, r)
    ensures AllQuiet(ns) ==> AllQuiet(r)
  {
    forall k | 0 <= k < |r|
      ensures WithinLimit(o, ns) ==> Within(o, r[k])
      ensures AllQuiet(ns) ==> Quiet(r[k])
    {
      assert Grew(o.concurrency, ns[k], r[k]);
      assert WithinLimit(o, ns) ==> Within(o, ns[k]);
      assert AllQuiet(ns) ==> Quiet(ns[k]);
    }
  }

  lemma WithinUpdate(o: Options, ns: seq<Node>, k: nat, n: Node)
    requires k < |ns| && WithinLimit(o, ns) && Within(o, n)
    ensures WithinLimit(o, ns[k := n])
  {
    var r := ns[k := n];
    forall j | 0 <= j < |r| ensures Within(o, r[j]) {
      assert Within(o, ns[j]);
    }
  }

  lemma QuietUpdate(ns: seq<Node>, k: nat, n: Node)
    requires k < |ns| && AllQuiet(ns) && (Quiet(ns[k]) ==> Quiet(n))
    ensures AllQuiet(ns[k := n])
  {
    var r := ns[k := n];
    forall j | 0 <= j < |r| ensures Quiet(r[j]) {
      assert Quiet(ns[j]);
    }
  }

  // ---- Dequeueing ----

  lemma DequeueKeeps(o: Options, ns: seq<Node>, k: nat)
    requires k < |ns| && ns[k].queue != [] && WorkConserving(o, ns)
    ensures WorkConserving(o, DequeueTask(o, ns, k).nodes)
  {
    Shifted(o, ns, k);
  }

  lemma WithoutStealing(o: Options, ns: seq<Node>, k: nat)
    requires k < |ns| && ns[k].queue != [] && !o.StealsOnEmptyQueue()
    ensures DequeueTask(o, ns, k).nodes == ns[k := ns[k].(queue := ns[k].queue[1..])]
  {
  }

  lemma DequeueAndExecuteKeeps(o: Options, ns: seq<Node>, k: nat)
    requires k < |ns| && ns[k].queue != []
    ensures WorkConserving(o, ns) ==> WorkConserving(o, DequeueAndExecute(o, ns, k))
    ensures AllQuiet(ns) ==> AllQuiet(DequeueAndExecute(o, ns, k))
    ensures WithinLimit(o, ns) && ns[k].executing < o.concurrency ==> WithinLimit(o, DequeueAndExecute(o, ns, k))
  {
    var taken := DequeueTask(o, ns, k);
    var t := taken.task.value;
    var n := taken.nodes[k];
    GrewKeeps(o, ns, taken.nodes);
    if WorkConserving(o, ns) {
      DequeueKeeps(o, ns, k);
      WorkConservingUpdate(o, taken.nodes, k, Send(n, t));
    }
    if AllQuiet(ns) {
      QuietUpdate(taken.nodes, k, Send(n, t));
    }
    if WithinLimit(o, ns) && ns[k].executing < o.concurrency {
      assert Grew(o.concurrency, ns[k], n);
      if !o.StealsOnEmptyQueue() {
        WithoutStealing(o, ns, k);
      }
      WithinUpdate(o, taken.nodes, k, Send(n, t));
    }
  }

  // ---- Responses ----

  /** Node k is one short of its quota and its only waiting task goes out: the cascade starts from a busy pool. */
  lemma RefillLast(o: Options, ns: seq<Node>, k: nat, n: Node)
    requires k < |ns| && WorkConserving(o, ns) && |n.queue| == 1
    ensures WorkConserving(o, DequeueAndExecute(o, ns[k := n], k))
  {
    var counted := ns[k := n];
    var m := n.(queue := n.queue[1..]);
    assert counted[k := m] == ns[k := m];
    WorkConservingUpdate(o, ns, k, m);
    var taken := DequeueTask(o, counted, k);
    assert taken.nodes == EmptiedQueue(o, ns[k := m], k);
    WorkConservingUpdate(o, taken.nodes, k, Send(taken.nodes[k], taken.task.value));
  }

  /** Node k is one short of its quota and has more waiting tasks than one: nothing is stolen. */
  lemma RefillOne(o: Options, ns: seq<Node>, k: nat, n: Node)
    requires k < |ns| && WorkConserving(o, ns) && |n.queue| > 1 && o.concurrency <= n.executing + 1
    ensures WorkConserving(o, DequeueAndExecute(o, ns[k := n], k))
  {
    var counted := ns[k := n];
    var m := n.(queue := n.queue[1..]);
    var shifted := counted[k := m];
    assert m.queue != [] && DequeueTask(o, counted, k).nodes == shifted;
    assert shifted[k := Send(m, n.queue[0])] == ns[k := Send(m, n.queue[0])];
    WorkConservingUpdate(o, ns, k, Send(m, n.queue[0]));
  }

  /** Counting an answer may leave node k one short of its quota; the response then refills it at once. */
  lemma RefillKeepsWorkConserving(o: Options, ns: seq<Node>, k: nat, failed: bool)
    requires k < |ns| && WorkConserving(o, ns) && o.enableTasksQueue
    ensures WorkConserving(o, AfterResponse(o, ns, k, failed))
  {
    var n := CountAnswer(ns[k], failed);
    assert Busy(o, ns[k]);
    if n.queue == [] || n.executing >= o.concurrency {
      WorkConservingUpdate(o, ns, k, n);
    } else if |n.queue| == 1 {
      RefillLast(o, ns, k, n);
    } else {
      RefillOne(o, ns, k, n);
    }
  }

  lemma ResponseKeepsLimit(o: Options, ns: seq<Node>, k: nat, failed: bool)
    requires k < |ns| && WithinLimit(o, ns)
    ensures WithinLimit(o, AfterResponse(o, ns, k, failed))
  {
    var counted := ns[k := CountAnswer(ns[k], failed)];
    assert Within(o, ns[k]);
    WithinUpdate(o, ns, k, counted[k]);
    if o.enableTasksQueue && counted[k].queue != [] && counted[k].executing < o.concurrency {
      DequeueAndExecuteKeeps(o, counted, k);
    }
  }

  lemma ResponseKeepsQuiet(o: Options, ns: seq<Node>, k: nat, failed: bool)
    requires k < |ns| && AllQuiet(ns)
    ensures AllQuiet(AfterResponse(o, ns, k, failed))
  {
    var counted := ns[k := CountAnswer(ns[k], failed)];
    QuietUpdate(ns, k, counted[k]);
    if o.enableTasksQueue && counted[k].queue != [] && counted[k].executing < o.concurrency {
      DequeueAndExecuteKeeps(o, counted, k);
    }
  }

  // ---- Ticks ----

  lemma WakeKeeps(o: Options, ns: seq<Node>, k: nat)
    requires k < |ns| && ns[k].asleep > 0 && AllQuiet(ns)
    ensures WorkConserving(o, ns) ==> WorkConserving(o, Wake(o, ns, k))
    ensures WithinLimit(o, ns) ==> WithinLimit(o, Wake(o, ns, k))
    ensures AllQuiet(Wake(o, ns, k))
  {
    hide WorkConserving, WithinLimit, Sum;
    var n := ns[k].(asleep := ns[k].asleep - 1);
    assert Quiet(ns[k]);
    if n.executing > 0 || n.queue != [] {
      var ended := n.(emptyQueueCount := 0);
      assert Wake(o, ns, k) == ns[k := ended];
      NodeKeeps(o, ns, k, ended);
      QuietUpdate(ns, k, ended);
    } else {
      // a node whose loop goes on has the same guards and continuation as before
      var started := ns[k := n.(emptyQueueCount := n.emptyQueueCount + 1)];
      assert started == ns[k := n][k := n.(emptyQueueCount := n.emptyQueueCount + 1)];
      NodeKeeps(o, ns, k, started[k]);
      var stolen := StealRound(o, ns[k := n], k);
      if o.StealsOnEmptyQueue() {
        GrewKeeps(o, started, stolen);
      } else {
        assert stolen == started;
      }
      var slept := stolen[k].(asleep := stolen[k].asleep + 1);
      NodeKeeps(o, stolen, k, slept);
      var r := stolen[k := slept];
      forall j | 0 <= j < |r| ensures Quiet(r[j]) {
        assert Quiet(ns[j]);
        assert o.StealsOnEmptyQueue() ==> Grew(o.concurrency, started[j], stolen[j]);
      }
    }
  }

  lemma NodeKeeps(o: Options, ns: seq<Node>, k: nat, n: Node)
    requires k < |ns| && n.executing == ns[k].executing && n.queue == ns[k].queue
    ensures WorkConserving(o, ns) ==> WorkConserving(o, ns[k := n])
    ensures WithinLimit(o, ns) ==> WithinLimit(o, ns[k := n])
  {
    if WorkConserving(o, ns) {
      WorkConservingUpdate(o, ns, k, n);
    }
    if WithinLimit(o, ns) {
      assert Within(o, ns[k]);
      WithinUpdate(o, ns, k, n);
    }
  }

  // ---- Steps and runs ----

  ghost predicate Steady(o: Options, s: State) {
    && WorkConserving(o, s.nodes)
    && WithinLimit(o, s.nodes)
    && AllQuiet(s.nodes)
  }

  lemma StepSteady(o: Options, s: State, e: Event)
    requires o.enableTasksQueue && Enabled(s, e) && AllQuiet(s.nodes) && WorkConserving(o, s.nodes)
    ensures AllQuiet(Step(o, s, e).nodes) && WorkConserving(o, Step(o, s, e).nodes)
    ensures WithinLimit(o, s.nodes) && !e.Flush? ==> WithinLimit(o, Step(o, s, e).nodes)
  {
    match e
    case Execute(k, t) =>
      GrewKeeps(o, s.nodes, PlaceTask(o, s.nodes, k, t));
    case Response(k, t, failed) =>
      var n := Answered(s.nodes[k], t);
      var ns := s.nodes[k := n];
      NodeKeeps(o, s.nodes, k, n);
      QuietUpdate(s.nodes, k, n);
      if t.taskId in s.pending && s.pending[t.taskId] < |s.nodes| {
        var key := s.pending[t.taskId];
        RefillKeepsWorkConserving(o, ns, key, failed);
        ResponseKeepsQuiet(o, ns, key, failed);
        if WithinLimit(o, ns) {
          ResponseKeepsLimit(o, ns, key, failed);
        }
      }
    case StrayResponse(_, _) =>
    case Tick(k) =>
      WakeKeeps(o, s.nodes, k);
    case Redistribute(k) =>
      var taken := DequeueTask(o, s.nodes, k);
      DequeueKeeps(o, s.nodes, k);
      GrewKeeps(o, s.nodes, taken.nodes);
      GrewKeeps(o, taken.nodes, RedistributeOne(o, s.nodes, k));
    case Flush(k) =>
      DequeueAndExecuteKeeps(o, s.nodes, k);
    case AddNode(ready) =>
      AddKeeps(o, s.nodes, ready);
    case SetReady(k, ready) =>
      NodeKeeps(o, s.nodes, k, s.nodes[k].(ready := ready));
      QuietUpdate(s.nodes, k, s.nodes[k].(ready := ready));
  }

  lemma AddKeeps(o: Options, ns: seq<Node>, ready: bool)
    requires AllQuiet(ns) && WorkConserving(o, ns)
    ensures AllQuiet(ns + [NewNode(ready)]) && WorkConserving(o, ns + [NewNode(ready)])
    ensures WithinLimit(o, ns) ==> WithinLimit(o, ns + [NewNode(ready)])
  {
    var r := ns + [NewNode(ready)];
    forall k | 0 <= k < |r|
      ensures Quiet(r[k]) && Busy(o, r[k])
      ensures WithinLimit(o, ns) ==> Within(o, r[k])
    {
      if k < |ns| {
        assert Quiet(ns[k]) && Busy(o, ns[k]);
        assert WithinLimit(o, ns) ==> Within(o, ns[k]);
      }
    }
  }

  lemma {:induction false} InitSteady(o: Options, n: nat)
    ensures Steady(o, Init(n))
  {
    forall k | 0 <= k < n ensures Busy(o, Init(n).nodes[k]) && Within(o, Init(n).nodes[k]) && Quiet(Init(n).nodes[k]) {
    }
  }

  lemma {:induction false} RunSteady(o: Options, n: nat, events: seq<Event>, r: State)
    requires o.enableTasksQueue && Run(o, Init(n), events, r)
    ensures AllQuiet(r.nodes) && WorkConserving(o, r.nodes)
    ensures (forall e :: e in events ==> !e.Flush?) ==> WithinLimit(o, r.nodes)
    decreases |events|
  {
    InitSteady(o, n);
    if events != [] {
      var last := |events| - 1;
      var m :| Run(o, Init(n), events[..last], m) && Enabled(m, events[last]) && r == Step(o, m, events[last]);
      RunSteady(o, n, events[..last], m);
      StepSteady(o, m, events[last]);
    }
  }

  /**
    In every reachable state a node with waiting tasks counts at least its quota as executing, a node
    counts at most the limit unless a queue was flushed, and a node has one sleeping steal
    continuation while its count of steal attempts is positive and none while it is zero.
   */
  lemma QuotaAndStealLoops(o: Options, n: nat, events: seq<Event>, r: State)
    requires o.enableTasksQueue && Run(o, Init(n), events, r)
    ensures forall k :: 0 <= k < |r.nodes| && r.nodes[k].queue != [] ==> o.concurrency <= r.nodes[k].executing
    ensures (forall e :: e in events ==> !e.Flush?) ==> forall k :: 0 <= k < |r.nodes| ==>
      r.nodes[k].executing <= o.concurrency + if o.taskStealing then 1 else 0
    ensures forall k :: 0 <= k < |r.nodes| ==>
      !r.nodes[k].backPressureStarted && r.nodes[k].asleep == if r.nodes[k].emptyQueueCount > 0 then 1 else 0
  {
    RunSteady(o, n, events, r);
    forall k | 0 <= k < |r.nodes|
      ensures Quiet(r.nodes[k]) && Busy(o, r.nodes[k]) && (WithinLimit(o, r.nodes) ==> Within(o, r.nodes[k]))
    {
    }
  }
}
