/**
  Under both kinds of stealing the tasks of a failed worker may pile up: a destination that fills up
  is relieved in favour of the node whose key is a position in the sorted copy, however long its queue.
 */
module Spilling {
  import opened Wrappers
  import opened WorkerNodes
  import opened Cascade
  import opened PoolMachine
  import opened Redistribution
  import opened StealingOrder
  import opened EmptyingSteals
  import opened FirstWorker
  import opened WaterFilling
  import opened Hanging
  import Quota

  // ---- A pool of five, of which only worker 4 is ready ----

  /** Queue lengths a, b, c, d of workers 0, 1, 3, 4; worker 2 makes worker 4 come second in the sorted copy. */
  ghost predicate Lopsided(o: Options, ns: seq<Node>, a: nat, b: nat, c: nat, d: nat) {
    && |ns| == 5 && ns[4].ready && (forall j :: 0 <= j < 4 ==> !ns[j].ready)
    && (forall j :: 0 <= j < 5 ==> ns[j].executing == o.concurrency)
    && |ns[0].queue| == a && |ns[1].queue| == b && |ns[3].queue| == c && |ns[4].queue| == d
    && |ns[2].queue| == if o.size == 2 then 0 else o.size
  }

  lemma Positions(ns: seq<Node>, order: seq<nat>, i: nat, j: nat)
    requires Sorted(ns, false, order) && i < |order| && j < |order| && i != j
    ensures order[i] != order[j] && (i < j <==> Precedes(ns, false, order[i], order[j]))
  {
    assert if i < j then Precedes(ns, false, order[i], order[j]) else Precedes(ns, false, order[j], order[i]);
  }

  lemma LoneComesSecond(o: Options, ns: seq<Node>, a: nat, b: nat)
    requires 1 < o.size && Lopsided(o, ns, a, b, 1, o.size - 2) && a > o.size - 2 && b > o.size - 2
    ensures KeysByQueued(ns, false, 5)[1] == 4
    ensures forall i :: 0 <= i < 5 && i != 1 ==> KeysByQueued(ns, false, 5)[i] != 4
  {
    hide KeysByQueued;
    var order := KeysByQueued(ns, false, 5);
    KeysSorted(ns, false, 5);
    var p: nat := if o.size == 2 then 2 else 3;
    assert 4 in order && p in order;
    var i: nat, h: nat :| i < 5 && h < 5 && order[i] == 4 && order[h] == p;
    Positions(ns, order, h, i);
    forall m | 0 <= m < 5 && m != i && m != h ensures order[m] != 4 && i < m {
      Positions(ns, order, m, i);
      Positions(ns, order, m, h);
    }
    assert order[0] == p && order[1] == 4;
  }

  /** The loop of a full node k steals once, into node 1, for that is the position of node 4. */
  lemma StealsIntoSecond(o: Options, ns: seq<Node>, k: nat, a: nat, b: nat, r: seq<Node>)
    requires 1 < o.size && Lopsided(o, ns, a, b, 1, o.size - 2) && a > o.size - 2 && b > o.size - 2
    requires k < 4 && ns[k].queue != [] && r == StealTask(o, ns, k, 1)
    requires |r| == 5 && forall j :: 0 <= j < 4 ==> !r[j].ready
    ensures TasksStealingOnBackPressure(o, ns, k) == r
  {
    hide KeysByQueued, StealTask, Cascaded, WorkConserving;
    var order := KeysByQueued(ns, false, 5);
    LoneComesSecond(o, ns, a, b);
    assert forall i :: 0 <= i < 5 ==> order[i] < 5;
    NonePasses(o, ns, k, order, 0, 1);
    assert Passes(o, ns, k, order[1]);
    assert StealFromFull(o, ns, k, order, 1) == StealFromFull(o, r, k, order, 2);
    NonePasses(o, r, k, order, 2, 5);
  }

  /** Node 1, as long as it is, keeps what it gets. */
  lemma SecondKeeps(o: Options, ns: seq<Node>, t: Task)
    requires o.StealsOnBackPressure() && 1 < o.size && Lopsided(o, ns, o.size - 1, o.size, 1, o.size - 2)
    ensures var r := PlaceTask(o, ns, 1, t);
      && r == ns[1 := r[1]] && !r[1].ready && r[1].executing == ns[1].executing && |r[1].queue| == o.size + 1
      && r[1].backPressureStarted == ns[1].backPressureStarted
  {
    hide StealTask, Cascaded, WorkConserving, TasksStealingOnBackPressure;
    var pushed := ns[1 := ns[1].(queue := ns[1].queue + [t])];
    if !pushed[1].backPressureStarted {
      var started := pushed[1 := pushed[1].(backPressureStarted := true)];
      StealFromItself(o, started, 1);
      var counted := started[1 := started[1].(stolen := started[1].stolen + 1)];
      StealsIntoSecond(o, started, 1, o.size - 1, o.size + 1, counted);
    }
  }

  /** Node 0 fills up and is relieved: its last task goes to node 1. */
  lemma FirstSpills(o: Options, ns: seq<Node>, t: Task)
    requires o.StealsOnBackPressure() && 1 < o.size && Lopsided(o, ns, o.size - 1, o.size, 1, o.size - 2)
    requires !ns[0].backPressureStarted
    ensures Lopsided(o, PlaceTask(o, ns, 0, t), o.size - 1, o.size + 1, 1, o.size - 2)
  {
    hide StealTask, Cascaded, WorkConserving, TasksStealingOnBackPressure, PopTask;
    var started := ns[0 := ns[0].(queue := ns[0].queue + [t], backPressureStarted := true)];
    var popped := started[0 := started[0].(queue := ns[0].queue)];
    assert ns[0 := ns[0].(queue := ns[0].queue + [t])][0 := started[0]] == started;
    assert started[0].queue[..o.size - 1] == ns[0].queue;
    PopFromFull(o, started, 0);
    SecondKeeps(o, popped, t);
    var placed := PlaceTask(o, popped, 1, t);
    var r := placed[1 := placed[1].(stolen := placed[1].stolen + 1)];
    StealIs(o, started, popped, t, placed);
    StealsIntoSecond(o, started, 0, o.size, o.size, r);
    assert EnqueueTask(o, ns, 0, t) == r[0 := r[0].(backPressureStarted := false)];
  }

  lemma StealIs(o: Options, ns: seq<Node>, popped: seq<Node>, t: Task, placed: seq<Node>)
    requires 1 < |ns| == |popped| && ns[0].queue != [] && PopTask(o, ns, 0) == Taken(Some(t), popped)
    requires placed == PlaceTask(o, popped, 1, t)
    ensures StealTask(o, ns, 0, 1) == placed[1 := placed[1].(stolen := placed[1].stolen + 1)]
  {
    hide Cascaded, WorkConserving, PopTask, PlaceTask;
  }

  /** Worker 3 loses its only task and steals one from worker 4. */
  lemma StealsFromLone(o: Options, ns: seq<Node>)
    requires 1 < o.size && LastOne(o, ns, 3) && Lopsided(o, ns, o.size - 1, o.size, 1, o.size - 1)
    ensures Lopsided(o, Emptied(o, ns, 3), o.size - 1, o.size, 1, o.size - 2)
    ensures Emptied(o, ns, 3)[0].backPressureStarted == ns[0].backPressureStarted
  {
    hide Emptied, Cascaded, WorkConserving, LastOne;
    assert Holds(ns, 4);
    if o.size == 2 {
      var e := EmptiedChains(o, ns, 3);
      assert forall j :: 0 <= j < 3 ==> SameShape(ns[3 := ns[3].(queue := [])][j], Emptied(o, ns, 3)[j]);
    } else {
      var s := EmptiedTakes(o, ns, 3);
    }
  }

  /** Worker 4 could have taken the task that made the queue of worker 1 the longest of all. */
  lemma SpilledInTheEnd(o: Options, ns: seq<Node>)
    requires o.StealsOnBackPressure() && 1 < o.size && LastOne(o, ns, 3)
    requires Lopsided(o, ns, o.size - 1, o.size, 1, o.size - 1) && !ns[0].backPressureStarted
    ensures var r := Iterate(o, ns, 3, 2);
      r[3].queue == [] && |r[1].queue| == o.size + 1 && r[4].ready && |r[4].queue| < o.size
  {
    hide Emptied, Cascaded, WorkConserving, LastOne, RedistributeOne, RedistributionTarget, PlaceTask;
    TargetIsFirst(ns);
    LastUnfolds(o, ns, 3);
    StealsFromLone(o, ns);
    FirstSpills(o, Emptied(o, ns, 3), ns[3].queue[0]);
    var m := RedistributeOne(o, ns, 3);
    LastStarts(o, ns, 3);
    TargetIsMinimal(m, 5);
    RedistributeOnePlain(o, m, 3);
    assert Iterate(o, ns, 3, 2) == Iterate(o, m, 3, 1) == Iterate(o, RedistributeOne(o, m, 3), 3, 0);
  }

  lemma TargetIsFirst(ns: seq<Node>)
    requires |ns| == 5 && forall j :: 0 <= j < 5 && ns[j].ready ==> |ns[j].queue| >= |ns[0].queue|
    ensures RedistributionTarget(ns, 5) == 0
  {
    hide RedistributionTarget;
    if RedistributionTarget(ns, 5) != 0 {
      TargetBeatsFirst(ns, 5);
    }
  }

  // ---- How such a pool comes about ----

  /** Nodes r are nodes ns, but for the tasks of node k: it executes its quota, and len tasks wait. */
  ghost predicate Filled(o: Options, ns: seq<Node>, r: seq<Node>, k: nat, len: nat) {
    && k < |ns| == |r| && r == ns[k := r[k]] && |r[k].queue| == len && r[k].executing == o.concurrency
    && r[k].ready == ns[k].ready && r[k].emptyQueueCount == ns[k].emptyQueueCount
  }

  /** While no worker is ready nothing is stolen, however full a queue gets. */
  lemma {:induction false} FillTo(o: Options, n: nat, s: State, k: nat, len: nat) returns (r: State)
    requires o.enableTasksQueue && Reached(o, n, s) && k < |s.nodes|
    requires forall j :: 0 <= j < |s.nodes| ==> !s.nodes[j].ready
    requires var a := s.nodes[k];
      a.executing <= o.concurrency && |a.queue| <= len && (a.queue != [] ==> a.executing == o.concurrency)
    ensures Reached(o, n, r) && |r.nodes| == |s.nodes| && Filled(o, s.nodes, r.nodes, k, len)
    decreases o.concurrency - s.nodes[k].executing, len - |s.nodes[k].queue|
  {
    hide Reached, EnqueueTask, Cascaded, WorkConserving;
    if s.nodes[k].executing == o.concurrency && |s.nodes[k].queue| == len {
      r := s;
    } else {
      var t := Task(|s.accepted|, "task");
      Fresh(o, n, s);
      ReachedThen(o, n, s, Execute(k, t));
      EnqueuePlain(o, s.nodes, k, t);
      r := FillTo(o, n, Step(o, s, Execute(k, t)), k, len);
    }
  }

  /** All workers go down. */
  lemma {:induction false} AllDown(o: Options, n: nat, m: nat) returns (r: State)
    requires m <= n
    ensures Reached(o, n, r) && |r.nodes| == n
    ensures forall j :: 0 <= j < n ==> r.nodes[j] == NewNode(j >= m)
  {
    hide Reached;
    if m == 0 {
      r := Init(n);
      FromStart(o, n);
    } else {
      var before := AllDown(o, n, m - 1);
      ReachedThen(o, n, before, SetReady(m - 1, false));
      r := Step(o, before, SetReady(m - 1, false));
    }
  }

  lemma LopsidedReached(o: Options) returns (r: State)
    requires o.StealsOnEmptyQueue() && 1 < o.size
    ensures Reached(o, 5, r) && LastOne(o, r.nodes, 3)
    ensures Lopsided(o, r.nodes, o.size - 1, o.size, 1, o.size - 1)
  {
    hide Reached;
    r := AllDown(o, 5, 5);
    r := FillTo(o, 5, r, 0, o.size - 1);
    r := FillTo(o, 5, r, 1, o.size);
    r := FillTo(o, 5, r, 2, if o.size == 2 then 0 else o.size);
    r := FillTo(o, 5, r, 3, 1);
    r := FillTo(o, 5, r, 4, o.size - 1);
    ReachedThen(o, 5, r, SetReady(4, true));
    r := Step(o, r, SetReady(4, true));
  }

  // ---- Exactly when water filling can be relied on ----

  /** Wherever redistribution from a failed worker k has ended, no queue that it made longer stands out. */
  ghost predicate FillsEvenly(o: Options, ns: seq<Node>, k: nat)
    requires k < |ns|
  {
    forall fuel: nat :: Iterate(o, ns, k, fuel)[k].queue == [] ==> Level(ns, Iterate(o, ns, k, fuel), k)
  }

  /** Of any worker but the first, in any pool that a run leads to. */
  ghost predicate AlwaysFillsEvenly(o: Options) {
    forall n: nat, events, s, k: nat :: Run(o, Init(n), events, s) && 0 < k < |s.nodes| && !s.nodes[k].ready ==>
      FillsEvenly(o, s.nodes, k)
  }

  lemma LopsidedSpills(o: Options)
    requires o.StealsOnEmptyQueue() && o.StealsOnBackPressure() && 1 < o.size
    ensures !AlwaysFillsEvenly(o)
  {
    hide LastOne, Iterate, Run;
    var s := LopsidedReached(o);
    var events :| Run(o, Init(5), events, s);
    Quota.QuotaAndStealLoops(o, 5, events, s);
    SpilledInTheEnd(o, s.nodes);
    assert !LevelAt(s.nodes, Iterate(o, s.nodes, 3, 2), 1, 4);
    assert !FillsEvenly(o, s.nodes, 3);
  }

  lemma EvenlyFilled(o: Options, n: nat, events: seq<Event>, s: State, k: nat)
    requires o.enableTasksQueue && (!o.StealsOnEmptyQueue() || NoBackPressure(o))
    requires Run(o, Init(n), events, s) && 0 < k < |s.nodes| && !s.nodes[k].ready
    ensures FillsEvenly(o, s.nodes, k)
  {
    hide Iterate, Run;
    Quota.QuotaAndStealLoops(o, n, events, s);
    forall fuel: nat | Iterate(o, s.nodes, k, fuel)[k].queue == []
      ensures Level(s.nodes, Iterate(o, s.nodes, k, fuel), k)
    {
      LevelInTheEnd(o, s.nodes, s.nodes, k, fuel);
    }
  }

  /**
    In every pool that runs lead to, redistribution fills the queues evenly, if and only if the options
    do not combine both kinds of stealing.
   */
  lemma WaterFillsExactly(o: Options)
    requires o.enableTasksQueue
    ensures AlwaysFillsEvenly(o) <==> !o.StealsOnEmptyQueue() || NoBackPressure(o)
  {
    hide Run, FillsEvenly;
    if o.StealsOnEmptyQueue() && !NoBackPressure(o) {
      LopsidedSpills(o);
    } else {
      forall n: nat, events, s, k: nat | Run(o, Init(n), events, s) && 0 < k < |s.nodes| && !s.nodes[k].ready
        ensures FillsEvenly(o, s.nodes, k)
      {
        EvenlyFilled(o, n, events, s, k);
      }
    }
  }
}
