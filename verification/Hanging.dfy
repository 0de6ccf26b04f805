/**
  Pools in which redistribution never ends: in a pool of any size, under any options, some few
  submissions and the failure of worker 0 are all it takes.
 */
module Hanging {
  import opened WorkerNodes
  import opened Cascade
  import opened PoolMachine
  import opened Redistribution
  import opened FirstWorker

  ghost predicate Reached(o: Options, n: nat, s: State) {
    && (exists events :: Run(o, Init(n), events, s))
    && forall a :: a in s.accepted ==> a.task.taskId < |s.accepted|
  }

  lemma ReachedThen(o: Options, n: nat, s: State, e: Event)
    requires Reached(o, n, s) && Enabled(s, e)
    requires e.Execute? ==> e.task.taskId == |s.accepted|
    requires e.Execute? || e.SetReady? || e.AddNode?
    ensures Reached(o, n, Step(o, s, e))
  {
    hide Run;
    var events :| Run(o, Init(n), events, s);
    RunThen(o, Init(n), events, s, e);
  }

  /** One task waits, and the quota is executing. */
  predicate Full(o: Options, n: Node) {
    n.ready && |n.queue| == 1 && n.executing == o.concurrency && n.emptyQueueCount == 0
  }

  /** Worker k gets tasks until one has to wait. */
  lemma {:induction false} Fill(o: Options, n: nat, s: State, k: nat) returns (r: State)
    requires o.enableTasksQueue && Reached(o, n, s) && k < |s.nodes|
    requires var a := s.nodes[k];
      a.ready && a.queue == [] && a.executing <= o.concurrency && a.emptyQueueCount == 0
    ensures Reached(o, n, r) && |r.nodes| == |s.nodes| && Full(o, r.nodes[k])
    ensures forall j :: 0 <= j < |s.nodes| && j != k ==> r.nodes[j] == s.nodes[j]
    decreases o.concurrency - s.nodes[k].executing
  {
    hide Reached, EnqueueTask, Cascaded, WorkConserving;
    var t := Task(|s.accepted|, "task");
    Fresh(o, n, s);
    ReachedThen(o, n, s, Execute(k, t));
    var next := Step(o, s, Execute(k, t));
    if s.nodes[k].executing < o.concurrency {
      r := Fill(o, n, next, k);
    } else {
      EnqueuePlain(o, s.nodes, k, t);
      r := next;
    }
  }

  lemma Fresh(o: Options, n: nat, s: State)
    requires Reached(o, n, s)
    ensures forall a :: a in s.accepted ==> a.task.taskId != |s.accepted|
  {
  }

  lemma {:induction false} FillAll(o: Options, n: nat, k: nat) returns (r: State)
    requires o.enableTasksQueue && k <= n
    ensures Reached(o, n, r) && |r.nodes| == n
    ensures forall j :: 0 <= j < n ==> if j < k then Full(o, r.nodes[j]) else r.nodes[j] == NewNode(true)
  {
    hide Reached;
    if k == 0 {
      r := Init(n);
      FromStart(o, n);
    } else {
      var before := FillAll(o, n, k - 1);
      r := Fill(o, n, before, k - 1);
    }
  }

  lemma FromStart(o: Options, n: nat)
    ensures Reached(o, n, Init(n))
  {
    assert Run(o, Init(n), [], Init(n));
  }

  lemma {:induction false} NoRoomAnywhere(o: Options, ns: seq<Node>, n: nat)
    requires n <= |ns| && forall j :: 0 < j < |ns| && ns[j].ready ==> ns[j].queue != []
    ensures Capacity(o, ns, n) == 0
  {
    if n > 0 {
      NoRoomAnywhere(o, ns, n - 1);
    }
  }

  /** Worker 0 is down with one task, every other worker is full, and nobody else is down but a worker just created. */
  lemma FullPoolHasNoRoom(o: Options, ns: seq<Node>, n: nat)
    requires 0 < n && (|ns| == n || (|ns| == n + 1 && ns[n] == NewNode(false)))
    requires !ns[0].ready && |ns[0].queue| == 1 && ns[0].executing == o.concurrency
    requires forall j :: 0 < j < n ==> Full(o, ns[j])
    ensures WorkConserving(o, ns) && !HasRoom(o, ns)
  {
    hide Capacity;
    NoRoomAnywhere(o, ns, |ns|);
    forall j | 0 <= j < |ns| ensures Busy(o, ns[j]) {
      assert 0 < j < n ==> Full(o, ns[j]);
    }
    forall j: nat, i: nat ensures !DetourAt(ns, j, i) {
      assert 0 < j < n ==> Full(o, ns[j]);
    }
  }

  /**
    In a pool of any number n of workers, under any options: each worker gets one task more than its
    quota, worker 0 fails, and redistributing its one waiting task never ends; whether or not a worker
    to replace it, not ready yet, is created first.
   */
  lemma RedistributionHangs(o: Options, n: nat, restarted: bool)
    requires o.enableTasksQueue && 0 < n
    ensures exists events, r ::
      (Run(o, Init(n), events, r) && |r.nodes| == n + (if restarted then 1 else 0)
       && !r.nodes[0].ready && r.nodes[0].queue != [] && !Ends(o, r.nodes, 0))
  {
    hide Run, Ends, HasRoom;
    var s := FillAll(o, n, n);
    ReachedThen(o, n, s, SetReady(0, false));
    var r := Step(o, s, SetReady(0, false));
    assert forall j :: 0 <= j < n ==> Full(o, s.nodes[j]);
    if restarted {
      ReachedThen(o, n, r, AddNode(false));
      r := Step(o, r, AddNode(false));
    }
    assert forall j :: 0 < j < n ==> r.nodes[j] == s.nodes[j];
    FullPoolHasNoRoom(o, r.nodes, n);
    FirstEndsExactly(o, r.nodes);
    var events :| Run(o, Init(n), events, r);
  }
}
