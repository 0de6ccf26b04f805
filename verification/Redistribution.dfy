/**
  Redistribution of a failed worker's queue (redistributeQueuedTasks): the loop run to its end, where
  its tasks go, and, under any options, exactly when it ends.
 */
module Redistribution {
  import opened WorkerNodes
  import opened Cascade
  import opened PoolMachine
  import opened Accounting

  /** Worker k is down, and emptying its queue does not make its node steal: it may not, or it does already. */
  predicate Failing(o: Options, ns: seq<Node>, k: nat) {
    k < |ns| && !ns[k].ready && (!o.StealsOnEmptyQueue() || ns[k].emptyQueueCount > 0)
  }

  /** At least the next iteration does not make the failed node steal. */
  predicate Undisturbed(o: Options, ns: seq<Node>, k: nat) {
    k < |ns| && !ns[k].ready && ns[k].queue != [] && (Failing(o, ns, k) || |ns[k].queue| > 1)
  }

  /** A node that the loop may choose: node 0, whether ready or not, or a ready node. */
  predicate Candidate(ns: seq<Node>, j: nat)
    requires j < |ns|
  {
    j == 0 || ns[j].ready
  }

  lemma {:induction false} TargetIsMinimal(ns: seq<Node>, n: nat)
    requires 0 < |ns| && n <= |ns|
    ensures Candidate(ns, RedistributionTarget(ns, n))
    ensures forall j :: 0 <= j < n && Candidate(ns, j) ==> |ns[RedistributionTarget(ns, n)].queue| <= |ns[j].queue|
    ensures |ns[RedistributionTarget(ns, n)].queue| <= |ns[0].queue|
  {
    if n > 0 {
      TargetIsMinimal(ns, n - 1);
    }
  }

  /** Of the shortest queues the first is chosen: every candidate before it has a longer one. */
  lemma {:induction false} TargetComesFirst(ns: seq<Node>, n: nat)
    requires 0 < |ns| && n <= |ns|
    ensures forall j :: 0 <= j < RedistributionTarget(ns, n) && Candidate(ns, j) ==>
      |ns[RedistributionTarget(ns, n)].queue| < |ns[j].queue|
  {
    if n > 0 {
      TargetComesFirst(ns, n - 1);
      TargetIsMinimal(ns, n - 1);
    }
  }

  /**
    One iteration in the terms of the two nodes it touches. Queueing the task sets off no stealing
    either: the target is full only when no ready node has a shorter queue to steal into.
   */
  lemma RedistributeOnePlain(o: Options, ns: seq<Node>, k: nat)
    requires Undisturbed(o, ns, k)
    ensures var target := RedistributionTarget(ns, |ns|);
      var shifted := ns[k := ns[k].(queue := ns[k].queue[1..])];
      var t := ns[k].queue[0];
      RedistributeOne(o, ns, k) ==
        if ShallExecuteTask(o, shifted, target) then shifted[target := Send(shifted[target], t)]
        else shifted[target := shifted[target].(queue := shifted[target].queue + [t])]
  {
    hide Cascaded, WorkConserving, EnqueueTask, RedistributionTarget;
    var shifted := ns[k := ns[k].(queue := ns[k].queue[1..])];
    assert EmptiedQueue(o, shifted, k) == shifted;
    TargetIsMinimal(ns, |ns|);
    EnqueuePlain(o, shifted, RedistributionTarget(ns, |ns|), ns[k].queue[0]);
  }

  /** The loop, cut off after `fuel` iterations. */
  function Iterate(o: Options, ns: seq<Node>, k: nat, fuel: nat): (r: seq<Node>)
    requires k < |ns|
    ensures |r| == |ns|
    decreases fuel
  {
    if fuel == 0 || ns[k].queue == [] then ns else Iterate(o, RedistributeOne(o, ns, k), k, fuel - 1)
  }

  /** The loop comes to an end. */
  ghost predicate Ends(o: Options, ns: seq<Node>, k: nat)
    requires k < |ns|
  {
    exists fuel: nat :: Iterate(o, ns, k, fuel)[k].queue == []
  }

  /** The placements made by the loop, for a worker other than the first. */
  function Placements(o: Options, ns: seq<Node>, k: nat, fuel: nat): seq<Assignment>
    requires k < |ns|
    decreases fuel
  {
    if fuel == 0 || ns[k].queue == [] then []
    else
      [Assignment(RedistributionTarget(ns, |ns|), ns[k].queue[0])]
        + Placements(o, RedistributeOne(o, ns, k), k, fuel - 1)
  }

  // ---- A failing worker other than the first ----

  /** What one iteration does when the failing worker is not the first one: the target is another node. */
  lemma IterationElsewhere(o: Options, ns: seq<Node>, k: nat)
    requires Undisturbed(o, ns, k) && k > 0
    ensures var target := RedistributionTarget(ns, |ns|);
      var t := ns[k].queue[0];
      var r := RedistributeOne(o, ns, k);
      && target != k && Candidate(ns, target)
      && r[k] == ns[k].(queue := ns[k].queue[1..])
      && ((r[target] == Send(ns[target], t) && ns[target].queue == [])
          || r[target] == ns[target].(queue := ns[target].queue + [t]))
      && forall j :: 0 <= j < |ns| && j != k && j != target ==> r[j] == ns[j]
  {
    hide Cascaded, WorkConserving, RedistributionTarget, RedistributeOne;
    TargetIsMinimal(ns, |ns|);
    RedistributeOnePlain(o, ns, k);
  }

  lemma {:induction false} AssignedPrepend(a: Assignment, placements: seq<Assignment>, j: nat)
    ensures AssignedTo([a] + placements, j) == (if a.key == j then [a.task] else []) + AssignedTo(placements, j)
  {
    if placements == [] {
      assert ([a] + placements)[..0] == [];
    } else {
      var last := |placements| - 1;
      AssignedPrepend(a, placements[..last], j);
      assert ([a] + placements)[..last + 1] == [a] + placements[..last];
    }
  }

  function TasksOf(placements: seq<Assignment>): seq<Task> {
    seq(|placements|, i requires 0 <= i < |placements| => placements[i].task)
  }

  /** Nothing but work reaches node b: b is node a after receiving `received`, in order. */
  predicate Received(a: Node, b: Node, received: seq<Task>) {
    && b.sent + b.queue == a.sent + a.queue + received
    && a.sent <= b.sent
    && b.executing - a.executing == |b.sent| - |a.sent|
    && (b.ready, b.executed, b.failed) == (a.ready, a.executed, a.failed)
  }

  lemma ReceivedThen(a: Node, b: Node, c: Node, first: seq<Task>, rest: seq<Task>)
    requires Received(a, b, first) && Received(b, c, rest)
    ensures Received(a, c, first + rest)
  {
    assert a.sent + a.queue + first + rest == a.sent + a.queue + (first + rest);
  }

  lemma ReceivesOne(a: Node, b: Node, t: Task)
    requires (b == Send(a, t) && a.queue == []) || b == a.(queue := a.queue + [t])
    ensures Received(a, b, [t])
  {
    assert a.sent + (a.queue + [t]) == a.sent + a.queue + [t];
  }

  lemma ReceivesNothing(a: Node)
    ensures Received(a, a, [])
  {
    assert a.sent + a.queue + [] == a.sent + a.queue;
  }

  /** What one iteration hands to node j. */
  lemma IterationReceived(o: Options, ns: seq<Node>, k: nat, j: nat)
    requires Undisturbed(o, ns, k) && k > 0 && j < |ns| && j != k
    ensures Received(ns[j], RedistributeOne(o, ns, k)[j],
                     if RedistributionTarget(ns, |ns|) == j then [ns[k].queue[0]] else [])
  {
    hide RedistributeOne, RedistributionTarget, Received;
    IterationElsewhere(o, ns, k);
    if RedistributionTarget(ns, |ns|) == j {
      ReceivesOne(ns[j], RedistributeOne(o, ns, k)[j], ns[k].queue[0]);
    } else {
      ReceivesNothing(ns[j]);
    }
  }

  lemma IterationFailing(o: Options, ns: seq<Node>, k: nat)
    requires Failing(o, ns, k) && k > 0 && ns[k].queue != []
    ensures var r := RedistributeOne(o, ns, k);
      && Failing(o, r, k) && r[k] == ns[k].(queue := ns[k].queue[1..])
      && forall j :: 0 <= j < |ns| ==> r[j].ready == ns[j].ready
  {
    IterationElsewhere(o, ns, k);
  }

  /**
    The loop ends after as many iterations as there are tasks. They leave in queue order, none of
    them to worker k, and each other node receives exactly what was placed on it, after what it had.
   */
  lemma {:induction false} Redistributed(o: Options, ns: seq<Node>, k: nat, fuel: nat)
    requires Failing(o, ns, k) && k > 0 && |ns[k].queue| <= fuel
    ensures Iterate(o, ns, k, fuel)[k] == ns[k].(queue := [])
    ensures TasksOf(Placements(o, ns, k, fuel)) == ns[k].queue
    ensures forall p :: p in Placements(o, ns, k, fuel) ==> p.key < |ns| && p.key != k && Candidate(ns, p.key)
    decreases fuel
  {
    hide RedistributeOne;
    if ns[k].queue != [] {
      IterationFailing(o, ns, k);
      TargetIsMinimal(ns, |ns|);
      var first := Assignment(RedistributionTarget(ns, |ns|), ns[k].queue[0]);
      var rest := Placements(o, RedistributeOne(o, ns, k), k, fuel - 1);
      Redistributed(o, RedistributeOne(o, ns, k), k, fuel - 1);
      assert TasksOf([first] + rest) == [first.task] + TasksOf(rest);
    }
  }

  lemma {:induction false} RedistributedTo(o: Options, ns: seq<Node>, k: nat, fuel: nat, j: nat)
    requires Failing(o, ns, k) && k > 0 && j < |ns| && j != k
    ensures Received(ns[j], Iterate(o, ns, k, fuel)[j], AssignedTo(Placements(o, ns, k, fuel), j))
    decreases fuel
  {
    hide RedistributeOne;
    if fuel > 0 && ns[k].queue != [] {
      IterationFailing(o, ns, k);
      IterationReceived(o, ns, k, j);
      var first := Assignment(RedistributionTarget(ns, |ns|), ns[k].queue[0]);
      var next := RedistributeOne(o, ns, k);
      var rest := Placements(o, next, k, fuel - 1);
      RedistributedTo(o, next, k, fuel - 1, j);
      ReceivedThen(ns[j], next[j], Iterate(o, next, k, fuel - 1)[j],
                   if first.key == j then [first.task] else [], AssignedTo(rest, j));
      AssignedPrepend(first, rest, j);
    }
  }

  /** Only the target's queue may grow in an iteration, and the target had a shortest queue. */
  lemma IterationGrows(o: Options, ns: seq<Node>, k: nat, j: nat, i: nat)
    requires Undisturbed(o, ns, k) && k > 0
    requires j < |ns| && j != k && i < |ns| && Candidate(ns, i)
    ensures var r := RedistributeOne(o, ns, k);
      && |ns[j].queue| <= |r[j].queue|
      && (|r[j].queue| > |ns[j].queue| ==> |r[j].queue| <= |ns[i].queue| + 1)
  {
    IterationElsewhere(o, ns, k);
    TargetIsMinimal(ns, |ns|);
  }

  /** Queue lengths never go down, except that of the failing worker. */
  lemma {:induction false} QueuesGrow(o: Options, ns: seq<Node>, k: nat, fuel: nat, j: nat)
    requires Failing(o, ns, k) && k > 0 && j < |ns| && j != k
    ensures |ns[j].queue| <= |Iterate(o, ns, k, fuel)[j].queue|
    ensures Iterate(o, ns, k, fuel)[j].ready == ns[j].ready
    decreases fuel
  {
    hide RedistributeOne, RedistributionTarget;
    if fuel > 0 && ns[k].queue != [] {
      IterationFailing(o, ns, k);
      IterationGrows(o, ns, k, j, 0);
      QueuesGrow(o, RedistributeOne(o, ns, k), k, fuel - 1, j);
    }
  }

  /**
    Water filling: a node whose queue the loop made longer ends up at most one task longer than any
    node that the loop could have chosen instead.
   */
  lemma {:induction false} WaterFilled(o: Options, ns: seq<Node>, k: nat, fuel: nat, j: nat, i: nat)
    requires Failing(o, ns, k) && k > 0
    requires j < |ns| && j != k && i < |ns| && Candidate(ns, i)
    requires |Iterate(o, ns, k, fuel)[j].queue| > |ns[j].queue|
    ensures |Iterate(o, ns, k, fuel)[j].queue| <= |Iterate(o, ns, k, fuel)[i].queue| + 1
    decreases fuel
  {
    hide RedistributeOne;
    IterationFailing(o, ns, k);
    IterationGrows(o, ns, k, j, i);
    IterationGrows(o, ns, k, i, i);
    var next := RedistributeOne(o, ns, k);
    QueuesGrow(o, next, k, fuel - 1, i);
    QueuesGrow(o, next, k, fuel - 1, j);
    if |Iterate(o, next, k, fuel - 1)[j].queue| > |next[j].queue| {
      WaterFilled(o, next, k, fuel - 1, j, i);
    }
  }

  // ---- The first worker fails ----

  /** How many tasks node j can take before its queue is longer than none. */
  function Room(o: Options, ns: seq<Node>, j: nat): nat
    requires j < |ns|
  {
    if j == 0 || !ns[j].ready || ns[j].queue != [] then 0
    else 1 + if ns[j].executing < o.concurrency then o.concurrency - ns[j].executing else 0
  }

  /** The room of the nodes below n. */
  function Capacity(o: Options, ns: seq<Node>, n: nat): nat
    requires n <= |ns|
  {
    if n == 0 then 0 else Capacity(o, ns, n - 1) + Room(o, ns, n - 1)
  }

  lemma {:induction false} CapacityUpdate(o: Options, ns: seq<Node>, r: seq<Node>, target: nat, n: nat)
    requires |r| == |ns| && n <= |ns| && target < |ns|
    requires forall j :: 0 <= j < |ns| && j != target ==> Room(o, r, j) == Room(o, ns, j)
    requires Room(o, ns, target) > 0 && Room(o, r, target) == Room(o, ns, target) - 1
    ensures Capacity(o, r, n) == Capacity(o, ns, n) - if target < n then 1 else 0
    ensures target < n ==> Capacity(o, ns, n) > 0
  {
    if n > 0 {
      CapacityUpdate(o, ns, r, target, n - 1);
    }
  }

  lemma {:induction false} CapacitySame(o: Options, ns: seq<Node>, r: seq<Node>, n: nat)
    requires |r| == |ns| && n <= |ns|
    requires forall j :: 0 <= j < |ns| ==> Room(o, r, j) == Room(o, ns, j)
    ensures Capacity(o, r, n) == Capacity(o, ns, n)
  {
    if n > 0 {
      CapacitySame(o, ns, r, n - 1);
    }
  }

  lemma {:induction false} SomeRoom(o: Options, ns: seq<Node>, n: nat) returns (j: nat)
    requires n <= |ns| && Capacity(o, ns, n) > 0
    ensures j < n && Room(o, ns, j) > 0
  {
    if Room(o, ns, n - 1) > 0 {
      j := n - 1;
    } else {
      j := SomeRoom(o, ns, n - 1);
    }
  }

  lemma {:induction false} RoomCounts(o: Options, ns: seq<Node>, n: nat, j: nat)
    requires j < n <= |ns|
    ensures Room(o, ns, j) <= Capacity(o, ns, n)
  {
    if j < n - 1 {
      RoomCounts(o, ns, n - 1, j);
    }
  }

  /** What one iteration does when worker 0 fails: its first task goes to another node, or back to its own queue. */
  lemma IterationFromFirst(o: Options, ns: seq<Node>)
    requires Undisturbed(o, ns, 0) && (Busy(o, ns[0]) || |ns[0].queue| > 1)
    ensures var target := RedistributionTarget(ns, |ns|);
      var t := ns[0].queue[0];
      var shifted := ns[0].(queue := ns[0].queue[1..]);
      RedistributeOne(o, ns, 0) ==
        if target == 0 then ns[0 := shifted.(queue := shifted.queue + [t])]
        else if ShallExecuteTask(o, ns, target) then ns[0 := shifted][target := Send(ns[target], t)]
        else ns[0 := shifted][target := ns[target].(queue := ns[target].queue + [t])]
  {
    hide RedistributeOne, RedistributionTarget;
    var target := RedistributionTarget(ns, |ns|);
    RedistributeOnePlain(o, ns, 0);
    var shifted := ns[0 := ns[0].(queue := ns[0].queue[1..])];
    if target == 0 {
      assert RedistributeOne(o, ns, 0) == ns[0 := shifted[0].(queue := shifted[0].queue + [ns[0].queue[0]])];
    }
  }

  lemma IterationWithRoom(o: Options, ns: seq<Node>)
    requires Undisturbed(o, ns, 0) && Busy(o, ns[0]) && Capacity(o, ns, |ns|) > 0
    ensures var r := RedistributeOne(o, ns, 0);
      && |r| == |ns| && r[0] == ns[0].(queue := ns[0].queue[1..])
      && Capacity(o, r, |ns|) == Capacity(o, ns, |ns|) - 1
  {
    hide RedistributeOne;
    var target := RedistributionTarget(ns, |ns|);
    var j := SomeRoom(o, ns, |ns|);
    TargetIsMinimal(ns, |ns|);
    assert ns[target].queue == [] && target != 0;
    IterationFromFirst(o, ns);
    CapacityUpdate(o, ns, RedistributeOne(o, ns, 0), target, |ns|);
  }

  lemma IterationWithoutRoom(o: Options, ns: seq<Node>)
    requires Undisturbed(o, ns, 0) && Busy(o, ns[0]) && Capacity(o, ns, |ns|) == 0
    ensures var r := RedistributeOne(o, ns, 0);
      && |r| == |ns| && r[0].queue != [] && r[0] == ns[0].(queue := r[0].queue)
      && Capacity(o, r, |ns|) == 0
  {
    hide Cascaded, WorkConserving, RedistributionTarget, RedistributeOne, Capacity;
    var target := RedistributionTarget(ns, |ns|);
    IterationFromFirst(o, ns);
    if target != 0 {
      TargetBeatsFirst(ns, |ns|);
      RoomCounts(o, ns, |ns|, target);
    }
    CapacitySame(o, ns, RedistributeOne(o, ns, 0), |ns|);
  }

  lemma {:induction false} TargetBeatsFirst(ns: seq<Node>, n: nat)
    requires 0 < |ns| && n <= |ns| && RedistributionTarget(ns, n) != 0
    ensures |ns[RedistributionTarget(ns, n)].queue| < |ns[0].queue|
    ensures ns[RedistributionTarget(ns, n)].ready
  {
    TargetIsMinimal(ns, n - 1);
    if RedistributionTarget(ns, n - 1) != 0 {
      TargetBeatsFirst(ns, n - 1);
    }
  }

  lemma {:induction false} FirstDrains(o: Options, ns: seq<Node>, fuel: nat)
    requires Failing(o, ns, 0) && Busy(o, ns[0])
    ensures |ns[0].queue| <= Capacity(o, ns, |ns|) && |ns[0].queue| <= fuel ==> Iterate(o, ns, 0, fuel)[0].queue == []
    ensures |ns[0].queue| > Capacity(o, ns, |ns|) ==> Iterate(o, ns, 0, fuel)[0].queue != []
    decreases fuel
  {
    hide RedistributeOne, Capacity, RedistributionTarget;
    if fuel > 0 && ns[0].queue != [] {
      if Capacity(o, ns, |ns|) > 0 {
        IterationWithRoom(o, ns);
      } else {
        IterationWithoutRoom(o, ns);
      }
      FirstDrains(o, RedistributeOne(o, ns, 0), fuel - 1);
    }
  }

  /**
    Exactly when redistribution ends, for a failed node that does not steal while it is emptied. For
    any worker but the first it always does. The reduce that picks the destination starts from node 0
    without looking whether it is ready, so when worker 0 itself fails, the loop gives its own tasks
    back to it: it ends if and only if the ready nodes with empty queues have room for all of them.
   */
  lemma RedistributionEnds(o: Options, ns: seq<Node>, k: nat)
    requires Failing(o, ns, k) && Busy(o, ns[k])
    ensures Ends(o, ns, k) <==> k > 0 || |ns[0].queue| <= Capacity(o, ns, |ns|)
  {
    var fuel := |ns[k].queue|;
    if k > 0 {
      Redistributed(o, ns, k, fuel);
      assert Iterate(o, ns, k, fuel)[k].queue == [];
    } else {
      FirstDrains(o, ns, fuel);
      if Ends(o, ns, 0) {
        var n: nat :| Iterate(o, ns, 0, n)[0].queue == [];
        FirstDrains(o, ns, n);
      }
    }
  }

  // ---- The failed node may steal ----

  lemma EndsOneLater(o: Options, ns: seq<Node>, k: nat)
    requires k < |ns| && ns[k].queue != []
    ensures Ends(o, ns, k) <==> Ends(o, RedistributeOne(o, ns, k), k)
  {
    hide RedistributeOne;
    var next := RedistributeOne(o, ns, k);
    if Ends(o, ns, k) {
      var n: nat :| Iterate(o, ns, k, n)[k].queue == [];
      assert n > 0 && Iterate(o, next, k, n - 1)[k].queue == [];
    }
    if Ends(o, next, k) {
      var n: nat :| Iterate(o, next, k, n)[k].queue == [];
      assert Iterate(o, ns, k, n + 1)[k].queue == [];
    }
  }

  lemma {:induction false} EndsLater(o: Options, ns: seq<Node>, k: nat, fuel: nat)
    requires k < |ns|
    ensures Ends(o, ns, k) <==> Ends(o, Iterate(o, ns, k, fuel), k)
    decreases fuel
  {
    hide RedistributeOne, Ends;
    if fuel > 0 && ns[k].queue != [] {
      EndsOneLater(o, ns, k);
      EndsLater(o, RedistributeOne(o, ns, k), k, fuel - 1);
    }
  }

  /** An iteration keeps the failed node down, and a steal loop that has started goes on. */
  lemma IterationKeeps(o: Options, ns: seq<Node>, k: nat)
    requires k < |ns| && ns[k].queue != []
    ensures var r := RedistributeOne(o, ns, k);
      && r[k].ready == ns[k].ready
      && (ns[k].emptyQueueCount > 0 ==> r[k].emptyQueueCount > 0)
      && (WorkConserving(o, ns) ==> WorkConserving(o, r))
  {
    hide WorkConserving, PlaceTask, RedistributionTarget;
    var taken := DequeueTask(o, ns, k);
    var r := RedistributeOne(o, ns, k);
    Shifted(o, ns, k);
    assert Grew(o.concurrency, ns[k], taken.nodes[k]) && Grew(o.concurrency, taken.nodes[k], r[k]);
  }

  /** The iteration that empties the failed node's queue starts its steal loop, and it can start only once. */
  lemma LastTaskStartsLoop(o: Options, ns: seq<Node>, k: nat)
    requires k < |ns| && |ns[k].queue| == 1 && o.StealsOnEmptyQueue() && ns[k].emptyQueueCount == 0
    ensures RedistributeOne(o, ns, k)[k].emptyQueueCount > 0
  {
    hide WorkConserving, PlaceTask, TaskStealingOnEmptyQueue, RedistributionTarget, Sum, AsMultiset;
    var shifted := ns[k := ns[k].(queue := ns[k].queue[1..])];
    var started := shifted[k := shifted[k].(emptyQueueCount := 1)];
    var stolen := TaskStealingOnEmptyQueue(o, started, k);
    assert Grew(o.concurrency, started[k], stolen[k]);
    var taken := DequeueTask(o, ns, k);
    assert taken.nodes == stolen[k := stolen[k].(asleep := stolen[k].asleep + 1)];
    var r := RedistributeOne(o, ns, k);
    assert Grew(o.concurrency, taken.nodes[k], r[k]);
  }

  /** Under any options the loop ends for every failed worker but the first. */
  lemma {:induction false} EndsElsewhere(o: Options, ns: seq<Node>, k: nat)
    requires 0 < k < |ns| && !ns[k].ready
    ensures Ends(o, ns, k)
    decreases |ns[k].queue|
  {
    hide RedistributeOne;
    var fuel := |ns[k].queue|;
    if Failing(o, ns, k) {
      Redistributed(o, ns, k, fuel);
      assert Iterate(o, ns, k, fuel)[k].queue == [];
    } else if ns[k].queue == [] {
      assert Iterate(o, ns, k, 0)[k].queue == [];
    } else {
      var next := RedistributeOne(o, ns, k);
      EndsOneLater(o, ns, k);
      IterationKeeps(o, ns, k);
      if |ns[k].queue| == 1 {
        LastTaskStartsLoop(o, ns, k);
        Redistributed(o, next, k, |next[k].queue|);
        assert Iterate(o, next, k, |next[k].queue|)[k].queue == [];
      } else {
        IterationElsewhere(o, ns, k);
        EndsElsewhere(o, next, k);
      }
    }
  }

  /** Worker 0 gets its own tasks back, and its queue is never empty, not even for a moment. */
  predicate Stuck(ns: seq<Node>) {
    |ns| > 0 && !ns[0].ready && |ns[0].queue| > 1 && RedistributionTarget(ns, |ns|) == 0
  }

  lemma {:induction false} SameTarget(ns: seq<Node>, r: seq<Node>, n: nat)
    requires 0 < |ns| == |r| && n <= |ns|
    requires forall j :: 0 <= j < |ns| ==> |r[j].queue| == |ns[j].queue| && r[j].ready == ns[j].ready
    ensures RedistributionTarget(r, n) == RedistributionTarget(ns, n)
  {
    if n > 0 {
      SameTarget(ns, r, n - 1);
    }
  }

  lemma StuckStays(o: Options, ns: seq<Node>)
    requires Stuck(ns)
    ensures Stuck(RedistributeOne(o, ns, 0))
  {
    hide RedistributeOne, RedistributionTarget;
    IterationFromFirst(o, ns);
    SameTarget(ns, RedistributeOne(o, ns, 0), |ns|);
  }

  lemma {:induction false} StuckForEver(o: Options, ns: seq<Node>, fuel: nat)
    requires Stuck(ns)
    ensures Stuck(Iterate(o, ns, 0, fuel))
    decreases fuel
  {
    hide RedistributeOne;
    if fuel > 0 {
      StuckStays(o, ns);
      StuckForEver(o, RedistributeOne(o, ns, 0), fuel - 1);
    }
  }

  lemma {:induction false} StuckHasNoRoom(o: Options, ns: seq<Node>, n: nat)
    requires Stuck(ns) && n <= |ns|
    ensures Capacity(o, ns, n) == 0
  {
    hide RedistributionTarget;
    TargetIsMinimal(ns, |ns|);
    if n > 0 {
      StuckHasNoRoom(o, ns, n - 1);
    }
  }

  /** How far the loop gets with the queue of worker 0 before it stops, starts stealing, or is stuck. */
  lemma {:induction false} FirstProgresses(o: Options, ns: seq<Node>, fuel: nat)
    requires 0 < |ns| && !ns[0].ready && o.StealsOnEmptyQueue() && WorkConserving(o, ns)
    ensures var s := Iterate(o, ns, 0, fuel);
      && !s[0].ready && WorkConserving(o, s)
      && (s[0].queue == [] || s[0].emptyQueueCount > 0 || Stuck(s) || |s[0].queue| + fuel <= |ns[0].queue|)
      && (ns[0].emptyQueueCount > 0 ==> s[0].emptyQueueCount > 0)
    decreases fuel
  {
    hide RedistributeOne, WorkConserving, Stuck;
    if fuel > 0 && ns[0].queue != [] {
      var next := RedistributeOne(o, ns, 0);
      IterationKeeps(o, ns, 0);
      FirstProgresses(o, next, fuel - 1);
      if ns[0].emptyQueueCount == 0 {
        FirstIteration(o, ns);
        if Stuck(next) {
          StuckForEver(o, next, fuel - 1);
        }
      }
    }
  }

  lemma FirstIteration(o: Options, ns: seq<Node>)
    requires 0 < |ns| && !ns[0].ready && o.StealsOnEmptyQueue() && ns[0].queue != [] && ns[0].emptyQueueCount == 0
    ensures var r := RedistributeOne(o, ns, 0);
      r[0].emptyQueueCount > 0 || Stuck(r) || |r[0].queue| < |ns[0].queue|
  {
    hide RedistributeOne, RedistributionTarget;
    if |ns[0].queue| == 1 {
      LastTaskStartsLoop(o, ns, 0);
    } else {
      IterationFromFirst(o, ns);
      if RedistributionTarget(ns, |ns|) == 0 {
        SameTarget(ns, RedistributeOne(o, ns, 0), |ns|);
      }
    }
  }

  /**
    Exactly when redistribution ends, under any options, in a pool that conserves work as every
    reachable one does: always for a worker other than the first; for the first, if and only if after
    as many iterations as there were tasks, the ready nodes with empty queues have room for what
    is left by then. The failed worker itself may have stolen meanwhile, but only once. (What this comes
    to in terms of the nodes before the loop is FirstWorker.FirstEndsExactly.)
   */
  lemma RedistributionEndsExactly(o: Options, ns: seq<Node>, k: nat)
    requires k < |ns| && !ns[k].ready && WorkConserving(o, ns)
    ensures var s := Iterate(o, ns, 0, |ns[0].queue|);
      Ends(o, ns, k) <==> k > 0 || |s[0].queue| <= Capacity(o, s, |s|)
  {
    hide RedistributeOne, Stuck;
    if k > 0 {
      EndsElsewhere(o, ns, k);
    } else {
      var s := Iterate(o, ns, 0, |ns[0].queue|);
      EndsLater(o, ns, 0, |ns[0].queue|);
      IterateKeeps(o, ns, 0, |ns[0].queue|);
      if s[0].queue == [] {
        assert Iterate(o, s, 0, 0)[0].queue == [];
      } else if Failing(o, s, 0) {
        assert Busy(o, s[0]);
        RedistributionEnds(o, s, 0);
      } else {
        FirstProgresses(o, ns, |ns[0].queue|);
        NeverEnds(o, s);
        StuckHasNoRoom(o, s, |s|);
      }
    }
  }

  lemma {:induction false} IterateKeeps(o: Options, ns: seq<Node>, k: nat, fuel: nat)
    requires k < |ns| && WorkConserving(o, ns)
    ensures var s := Iterate(o, ns, k, fuel);
      s[k].ready == ns[k].ready && WorkConserving(o, s)
    decreases fuel
  {
    hide RedistributeOne, WorkConserving;
    if fuel > 0 && ns[k].queue != [] {
      IterationKeeps(o, ns, k);
      IterateKeeps(o, RedistributeOne(o, ns, k), k, fuel - 1);
    }
  }

  lemma NeverEnds(o: Options, ns: seq<Node>)
    requires Stuck(ns)
    ensures !Ends(o, ns, 0)
  {
    hide RedistributeOne;
    forall n: nat ensures Iterate(o, ns, 0, n)[0].queue != [] {
      StuckForEver(o, ns, n);
    }
  }
}
