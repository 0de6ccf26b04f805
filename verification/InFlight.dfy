/**
  What the counters say about the tasks really in flight. A response is counted at the node its task
  was assigned to, so a single counter says little once tasks move; but the sum of all counters never
  falls below the number of tasks in flight.
 */
module InFlight {
  import opened WorkerNodes
  import opened Cascade
  import opened PoolMachine
  import Quota

  function Flying(n: Node): nat {
    |n.running|
  }

  ghost predicate Covered(ns: seq<Node>) {
    Total(ns, Flying) <= Total(ns, Executing)
  }

  /** A cascade counts exactly the tasks that it sends. */
  lemma {:induction false} GrewCounts(quota: nat, ns: seq<Node>, r: seq<Node>)
    requires AllGrew(quota, ns, r)
    ensures Total(r, Flying) + Total(ns, Executing) == Total(ns, Flying) + Total(r, Executing)
  {
    if ns != [] {
      var last := |ns| - 1;
      var ns', r' := ns[..last], r[..last];
      forall j | 0 <= j < last ensures Grew(quota, ns'[j], r'[j]) {
        assert Grew(quota, ns[j], r[j]);
      }
      GrewCounts(quota, ns', r');
      assert Grew(quota, ns[last], r[last]);
      assert |multiset(r[last].sent[|ns[last].sent|..])| == |r[last].sent| - |ns[last].sent|;
    }
  }

  lemma UpdateCovered(ns: seq<Node>, k: nat, n: Node)
    requires k < |ns| && Covered(ns) && Flying(n) + ns[k].executing <= Flying(ns[k]) + n.executing
    ensures Covered(ns[k := n])
  {
    TotalUpdate(ns, k, n, Flying);
    TotalUpdate(ns, k, n, Executing);
  }

  lemma DequeueAndExecuteCovered(o: Options, ns: seq<Node>, k: nat)
    requires k < |ns| && ns[k].queue != [] && Covered(ns)
    ensures Covered(DequeueAndExecute(o, ns, k))
  {
    var taken := DequeueTask(o, ns, k);
    GrewCounts(o.concurrency, ns, taken.nodes);
    UpdateCovered(taken.nodes, k, Send(taken.nodes[k], taken.task.value));
  }

  /** An answer takes one task out of flight at its worker and one off some counter, if that is not zero already. */
  lemma ResponseCovered(o: Options, ns: seq<Node>, k: nat, t: Task, owner: nat, failed: bool)
    requires k < |ns| && owner < |ns| && t in ns[k].running && Covered(ns)
    ensures Covered(ns[k := Answered(ns[k], t)])
    ensures Covered(AfterResponse(o, ns[k := Answered(ns[k], t)], owner, failed))
  {
    hide DequeueAndExecute;
    var answered := ns[k := Answered(ns[k], t)];
    TotalUpdate(ns, k, answered[k], Flying);
    TotalUpdate(ns, k, answered[k], Executing);
    var counted := answered[owner := CountAnswer(answered[owner], failed)];
    TotalUpdate(answered, owner, counted[owner], Flying);
    TotalUpdate(answered, owner, counted[owner], Executing);
    if o.enableTasksQueue && counted[owner].queue != [] && counted[owner].executing < o.concurrency {
      DequeueAndExecuteCovered(o, counted, owner);
    }
  }

  lemma TickCovered(o: Options, ns: seq<Node>, k: nat)
    requires k < |ns| && Covered(ns)
    ensures Covered(StartOnEmptyQueue(o, ns, k))
  {
    hide TaskStealingOnEmptyQueue, Covered;
    if ns[k].emptyQueueCount > 0 && (ns[k].executing > 0 || ns[k].queue != []) {
      UpdateCovered(ns, k, ns[k].(emptyQueueCount := 0));
    } else {
      var started := ns[k := ns[k].(emptyQueueCount := ns[k].emptyQueueCount + 1)];
      UpdateCovered(ns, k, started[k]);
      var stolen := StealRound(o, ns, k);
      if o.StealsOnEmptyQueue() {
        GrewCounts(o.concurrency, started, stolen);
      }
      UpdateCovered(stolen, k, stolen[k].(asleep := stolen[k].asleep + 1));
    }
  }

  lemma RedistributeCovered(o: Options, ns: seq<Node>, k: nat)
    requires k < |ns| && ns[k].queue != [] && Covered(ns)
    ensures Covered(RedistributeOne(o, ns, k))
  {
    var taken := DequeueTask(o, ns, k);
    GrewCounts(o.concurrency, ns, taken.nodes);
    GrewCounts(o.concurrency, taken.nodes, RedistributeOne(o, ns, k));
  }

  lemma SubmitCovered(o: Options, ns: seq<Node>, k: nat, t: Task)
    requires k < |ns| && Covered(ns)
    ensures Covered(SubmitTask(o, ns, k, t))
  {
    if o.enableTasksQueue {
      GrewCounts(o.concurrency, ns, PlaceTask(o, ns, k, t));
    } else {
      UpdateCovered(ns, k, Send(ns[k], t));
    }
  }

  lemma StepCovered(o: Options, s: State, e: Event)
    requires Enabled(s, e) && Covered(s.nodes)
    ensures Covered(Step(o, s, e).nodes)
  {
    hide Covered, SubmitTask, AfterResponse, StartOnEmptyQueue, RedistributeOne, DequeueAndExecute, Total;
    match e
    case Execute(k, t) => SubmitCovered(o, s.nodes, k, t);
    case Response(k, t, failed) =>
      var settles := t.taskId in s.pending && s.pending[t.taskId] < |s.nodes|;
      ResponseCovered(o, s.nodes, k, t, if settles then s.pending[t.taskId] else k, failed);
    case StrayResponse(_, _) =>
    case Tick(k) =>
      var woken := s.nodes[k].(asleep := s.nodes[k].asleep - 1);
      UpdateCovered(s.nodes, k, woken);
      TickCovered(o, s.nodes[k := woken], k);
    case Redistribute(k) => RedistributeCovered(o, s.nodes, k);
    case Flush(k) => DequeueAndExecuteCovered(o, s.nodes, k);
    case AddNode(ready) => AddCovered(s.nodes, ready);
    case SetReady(k, ready) => UpdateCovered(s.nodes, k, s.nodes[k].(ready := ready));
  }

  lemma AddCovered(ns: seq<Node>, ready: bool)
    requires Covered(ns)
    ensures Covered(ns + [NewNode(ready)])
  {
    assert (ns + [NewNode(ready)])[..|ns|] == ns;
  }

  lemma {:induction false} InitCovered(n: nat)
    ensures Covered(Init(n).nodes)
  {
    if n > 0 {
      InitCovered(n - 1);
      assert Init(n).nodes == Init(n - 1).nodes + [NewNode(true)];
      AddCovered(Init(n - 1).nodes, true);
    }
  }

  lemma {:induction false} RunCovered(o: Options, n: nat, events: seq<Event>, r: State)
    requires Run(o, Init(n), events, r)
    ensures Covered(r.nodes)
    decreases |events|
  {
    hide Step, Enabled, Covered;
    if events == [] {
      InitCovered(n);
    } else {
      var last := |events| - 1;
      var m :| Run(o, Init(n), events[..last], m) && Enabled(m, events[last]) && r == Step(o, m, events[last]);
      RunCovered(o, n, events[..last], m);
      StepCovered(o, m, events[last]);
    }
  }

  lemma {:induction false} TotalBounded(ns: seq<Node>, limit: nat)
    requires forall k :: 0 <= k < |ns| ==> ns[k].executing <= limit
    ensures Total(ns, Executing) <= |ns| * limit
  {
    if ns != [] {
      var last := |ns| - 1;
      TotalBounded(ns[..last], limit);
      assert |ns| * limit == last * limit + limit;
    }
  }

  /**
    In every reachable state, whatever was stolen, redistributed or flushed, no more tasks are in
    flight in the pool than its counters say; and without a flush, these are at most the limit for
    each worker, although a single worker may well have more.
   */
  lemma InFlightIsCounted(o: Options, n: nat, events: seq<Event>, r: State)
    requires Run(o, Init(n), events, r)
    ensures Total(r.nodes, Flying) <= Total(r.nodes, Executing)
    ensures o.enableTasksQueue && (forall e :: e in events ==> !e.Flush?) ==>
      Total(r.nodes, Flying) <= |r.nodes| * (o.concurrency + if o.taskStealing then 1 else 0)
  {
    hide Run;
    RunCovered(o, n, events, r);
    if o.enableTasksQueue && forall e :: e in events ==> !e.Flush? {
      Quota.QuotaAndStealLoops(o, n, events, r);
      TotalBounded(r.nodes, o.concurrency + if o.taskStealing then 1 else 0);
    }
  }
}
