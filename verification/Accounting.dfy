/**
  Runs in which tasks stay where they were assigned: no stealing and no redistribution. Then each
  worker is served in the order of assignment, and the counters of its node are exact.
 */
module Accounting {
  import opened WorkerNodes
  import opened Cascade
  import opened PoolMachine
  import opened ExactlyOnce

  /** The tasks assigned to node k, in the order in which execute accepted them. */
  function AssignedTo(accepted: seq<Assignment>, k: nat): seq<Task> {
    if accepted == [] then []
    else
      var last := accepted[|accepted| - 1];
      AssignedTo(accepted[..|accepted| - 1], k) + if last.key == k then [last.task] else []
  }

  /** Node k has sent, in order, a prefix of what was assigned to it, and holds the rest in order. */
  predicate Fifo(n: Node, assignedTasks: seq<Task>) {
    n.sent + n.queue == assignedTasks
  }

  /** The counters say how many tasks are in flight, and how many were answered. */
  predicate Exact(n: Node) {
    n.executing == |n.running| && n.executed + n.failed + n.executing == |n.sent|
  }

  ghost predicate Remembered(s: State, k: nat)
    requires k < |s.nodes|
  {
    forall t :: LiveAt(s, t, k) ==> t.taskId in s.pending && s.pending[t.taskId] == k
  }

  ghost predicate InPlace(o: Options, s: State, k: nat)
    requires k < |s.nodes|
  {
    && Fifo(s.nodes[k], AssignedTo(s.accepted, k))
    && Exact(s.nodes[k])
    && Remembered(s, k)
    && (o.enableTasksQueue || s.nodes[k].queue == [])
  }

  ghost predicate AllInPlace(o: Options, s: State) {
    && (forall k {:trigger InPlace(o, s, k)} :: 0 <= k < |s.nodes| ==> InPlace(o, s, k))
    && forall a :: a in s.accepted ==> a.key < |s.nodes|
  }

  // ---- Without stealing, queue operations touch one node ----

  lemma PlacePlain(o: Options, ns: seq<Node>, k: nat, t: Task)
    requires k < |ns| && o.NoStealing() && (o.enableTasksQueue || ns[k].queue == [])
    ensures var r := SubmitTask(o, ns, k, t);
      if !o.enableTasksQueue || ShallExecuteTask(o, ns, k) then r == ns[k := Send(ns[k], t)] && ns[k].queue == []
      else r == ns[k := ns[k].(queue := ns[k].queue + [t])]
  {
    EnqueuePlain(o, ns, k, t);
  }

  lemma DequeuePlain(o: Options, ns: seq<Node>, k: nat)
    requires k < |ns| && !o.StealsOnEmptyQueue() && ns[k].queue != []
    ensures DequeueAndExecute(o, ns, k) == ns[k := Send(ns[k].(queue := ns[k].queue[1..]), ns[k].queue[0])]
  {
    var shifted := ns[k := ns[k].(queue := ns[k].queue[1..])];
    assert EmptiedQueue(o, shifted, k) == shifted;
    assert shifted[k := Send(shifted[k], ns[k].queue[0])] == ns[k := Send(shifted[k], ns[k].queue[0])];
  }

  // ---- Steps ----

  lemma AssignedAppend(accepted: seq<Assignment>, a: Assignment, k: nat)
    ensures AssignedTo(accepted + [a], k) == AssignedTo(accepted, k) + if a.key == k then [a.task] else []
  {
    assert (accepted + [a])[..|accepted|] == accepted;
  }

  lemma LiveIdAccepted(s: State, t: Task, k: nat)
    requires Accounted(s) && LiveAt(s, t, k)
    ensures exists a :: a in s.accepted && a.task == t
  {
    LiveInSum(s, t, k);
    assert t in Sum(s.nodes, Live) + multiset(s.settled);
    AcceptedAt(s.accepted, t);
    var i :| 0 <= i < |s.accepted| && s.accepted[i].task == t;
    assert s.accepted[i] in s.accepted;
  }

  /** Submitting t adds it at the end of what node k sent, if it had nothing to send, or of what it holds. */
  lemma SubmittedFifo(n: Node, t: Task, m: Node, tasks: seq<Task>)
    requires Fifo(n, tasks) && Exact(n)
    requires (m == Send(n, t) && n.queue == []) || m == n.(queue := n.queue + [t])
    ensures Fifo(m, tasks + [t]) && Exact(m)
  {
    assert n.sent + (n.queue + [t]) == (n.sent + n.queue) + [t];
  }

  lemma SubmittedRemembered(s: State, m: Node, k: nat, t: Task, j: nat)
    requires Accounted(s) && k < |s.nodes| && j < |s.nodes| && Remembered(s, j)
    requires Enabled(s, Execute(k, t))
    requires m == Send(s.nodes[k], t) || m == s.nodes[k].(queue := s.nodes[k].queue + [t])
    ensures Remembered(State(s.nodes[k := m], s.pending[t.taskId := k], s.accepted + [Assignment(k, t)], s.settled), j)
  {
    var r := State(s.nodes[k := m], s.pending[t.taskId := k], s.accepted + [Assignment(k, t)], s.settled);
    forall u | LiveAt(r, u, j) ensures u.taskId in r.pending && r.pending[u.taskId] == j {
      if LiveAt(s, u, j) {
        LiveIdAccepted(s, u, j);
      } else {
        assert u == t && j == k;
      }
    }
  }

  lemma ExecuteInPlace(o: Options, s: State, k: nat, t: Task, j: nat)
    requires o.NoStealing() && Enabled(s, Execute(k, t)) && AllInPlace(o, s) && Accounted(s) && j < |s.nodes|
    ensures InPlace(o, Step(o, s, Execute(k, t)), j)
  {
    assert InPlace(o, s, j) && InPlace(o, s, k);
    PlacePlain(o, s.nodes, k, t);
    var m := SubmitTask(o, s.nodes, k, t)[k];
    SubmittedRemembered(s, m, k, t, j);
    AssignedAppend(s.accepted, Assignment(k, t), j);
    SubmittedFifo(s.nodes[k], t, m, AssignedTo(s.accepted, k));
  }

  /** Dequeueing the head and sending it keeps a node in place. */
  function SendHead(n: Node): Node
    requires n.queue != []
  {
    Send(n.(queue := n.queue[1..]), n.queue[0])
  }

  lemma SendHeadInPlace(o: Options, s: State, k: nat, r: State, j: nat)
    requires k < |s.nodes| && s.nodes[k].queue != [] && j < |s.nodes| && InPlace(o, s, j)
    requires r == s.(nodes := s.nodes[k := SendHead(s.nodes[k])])
    ensures InPlace(o, r, j)
  {
    forall u | LiveAt(r, u, j) ensures LiveAt(s, u, j) {
    }
  }

  /** The worker of node k answers: its node, and no other, is counted and refilled. */
  lemma ResponseInPlace(o: Options, s: State, k: nat, t: Task, failed: bool, j: nat)
    requires o.NoStealing() && Enabled(s, Response(k, t, failed)) && AllInPlace(o, s) && Accounted(s) && j < |s.nodes|
    ensures s.nodes[k].executing > 0
    ensures InPlace(o, Step(o, s, Response(k, t, failed)), j)
  {
    hide AssignedTo, Accounted, DequeueAndExecute, Cascaded;
    var r := Step(o, s, Response(k, t, failed));
    assert InPlace(o, s, j) && InPlace(o, s, k) && LiveAt(s, t, k);
    var n := CountAnswer(Answered(s.nodes[k], t), failed);
    var m := State(s.nodes[k := n], s.pending - {t.taskId}, s.accepted, s.settled + [t]);
    assert s.nodes[k := Answered(s.nodes[k], t)][k := n] == m.nodes;
    AnsweredInPlace(o, s, k, t, failed, j);
    if o.enableTasksQueue && n.queue != [] && n.executing < o.concurrency {
      DequeuePlain(o, m.nodes, k);
      SendHeadInPlace(o, m, k, r, j);
    }
  }

  lemma AnsweredInPlace(o: Options, s: State, k: nat, t: Task, failed: bool, j: nat)
    requires Enabled(s, Response(k, t, failed)) && AllInPlace(o, s) && Accounted(s) && j < |s.nodes|
    ensures InPlace(o, State(s.nodes[k := CountAnswer(Answered(s.nodes[k], t), failed)],
                             s.pending - {t.taskId}, s.accepted, s.settled + [t]), j)
  {
    hide AssignedTo, Accounted;
    assert InPlace(o, s, j) && InPlace(o, s, k) && LiveAt(s, t, k);
    var n := CountAnswer(Answered(s.nodes[k], t), failed);
    var m := State(s.nodes[k := n], s.pending - {t.taskId}, s.accepted, s.settled + [t]);
    forall u | LiveAt(m, u, j) ensures u.taskId in m.pending && m.pending[u.taskId] == j {
      assert LiveAt(s, u, j);
      if u.taskId == t.taskId {
        LiveAtOnce(s, t, u, k, j);
      }
    }
  }

  /** Whatever the guards, timers and readiness of its nodes become, a pool whose work is as before is in place. */
  lemma SameWorkInPlace(o: Options, s: State, r: State, k: nat)
    requires k < |s.nodes| == |r.nodes| && InPlace(o, s, k)
    requires r.pending == s.pending && r.accepted == s.accepted
    requires var a, b := s.nodes[k], r.nodes[k];
      && b.queue == a.queue && b.sent == a.sent && b.running == a.running
      && b.executing == a.executing && b.executed == a.executed && b.failed == a.failed
    ensures InPlace(o, r, k)
  {
    forall u | LiveAt(r, u, k) ensures LiveAt(s, u, k) {
    }
  }

  lemma {:induction false} NoneAssigned(accepted: seq<Assignment>, k: nat)
    requires forall a :: a in accepted ==> a.key < k
    ensures AssignedTo(accepted, k) == []
  {
    if accepted != [] {
      var last := |accepted| - 1;
      assert accepted[last] in accepted;
      NoneAssigned(accepted[..last], k);
    }
  }

  lemma AddNodeInPlace(o: Options, s: State, ready: bool, j: nat)
    requires AllInPlace(o, s) && j <= |s.nodes|
    ensures InPlace(o, s.(nodes := s.nodes + [NewNode(ready)]), j)
  {
    var r := s.(nodes := s.nodes + [NewNode(ready)]);
    if j < |s.nodes| {
      assert InPlace(o, s, j);
      forall u | LiveAt(r, u, j) ensures LiveAt(s, u, j) {
      }
    } else {
      NoneAssigned(s.accepted, j);
    }
  }

  lemma StepInPlace(o: Options, s: State, e: Event)
    requires o.NoStealing() && !e.Redistribute? && Enabled(s, e) && AllInPlace(o, s) && Accounted(s)
    ensures AllInPlace(o, Step(o, s, e))
  {
    hide AssignedTo, Accounted, DequeueAndExecute, SubmitTask, AfterResponse, Cascaded;
    var r := Step(o, s, e);
    forall j | 0 <= j < |r.nodes| ensures InPlace(o, r, j) {
      assert j < |s.nodes| ==> InPlace(o, s, j);
      match e
      case Execute(k, t) => ExecuteInPlace(o, s, k, t, j);
      case Response(k, t, failed) => ResponseInPlace(o, s, k, t, failed, j);
      case StrayResponse(_, _) =>
      case Tick(k) => SameWorkInPlace(o, s, r, j);
      case Flush(k) =>
        DequeuePlain(o, s.nodes, k);
        SendHeadInPlace(o, s, k, r, j);
      case AddNode(ready) => AddNodeInPlace(o, s, ready, j);
      case SetReady(k, ready) => SameWorkInPlace(o, s, r, j);
    }
    StepKeepsNodes(o, s, e);
  }

  lemma StepKeepsNodes(o: Options, s: State, e: Event)
    requires Enabled(s, e)
    ensures |s.nodes| <= |Step(o, s, e).nodes|
    ensures Step(o, s, e).accepted == s.accepted
      || (e.Execute? && Step(o, s, e).accepted == s.accepted + [Assignment(e.key, e.task)])
  {
  }

  // ---- Runs ----

  predicate StaysPut(events: seq<Event>) {
    forall e :: e in events ==> !e.Redistribute?
  }

  lemma {:induction false} RunInPlace(o: Options, n: nat, events: seq<Event>, r: State)
    requires o.NoStealing() && StaysPut(events) && Run(o, Init(n), events, r)
    ensures AllInPlace(o, r) && Accounted(r)
    decreases |events|
  {
    RunAccounted(o, n, events, r);
    if events == [] {
      forall k | 0 <= k < n ensures InPlace(o, r, k) {
      }
    } else {
      var last := |events| - 1;
      var m :| Run(o, Init(n), events[..last], m) && Enabled(m, events[last]) && r == Step(o, m, events[last]);
      RunInPlace(o, n, events[..last], m);
      assert events[last] in events;
      StepInPlace(o, m, events[last]);
    }
  }

  /** Each worker is sent what was assigned to it, in that order, and its queue is what is left of it. */
  lemma FifoPerWorker(o: Options, n: nat, events: seq<Event>, r: State)
    requires o.NoStealing() && StaysPut(events) && Run(o, Init(n), events, r)
    ensures forall k :: 0 <= k < |r.nodes| ==> r.nodes[k].sent + r.nodes[k].queue == AssignedTo(r.accepted, k)
  {
    RunInPlace(o, n, events, r);
    forall k | 0 <= k < |r.nodes| ensures r.nodes[k].sent + r.nodes[k].queue == AssignedTo(r.accepted, k) {
      assert InPlace(o, r, k);
    }
  }

  lemma CountersInPlace(o: Options, s: State, k: nat)
    requires AllInPlace(o, s) && k < |s.nodes|
    ensures var a := s.nodes[k];
      && a.executing == |a.running|
      && a.executed + a.failed + a.executing + |a.queue| == |AssignedTo(s.accepted, k)|
    ensures forall t :: t in s.nodes[k].running ==>
      t.taskId in s.pending && s.pending[t.taskId] == k && s.nodes[k].executing > 0
  {
    assert InPlace(o, s, k);
    assert |s.nodes[k].sent + s.nodes[k].queue| == |AssignedTo(s.accepted, k)|;
    forall t | t in s.nodes[k].running
      ensures t.taskId in s.pending && s.pending[t.taskId] == k && s.nodes[k].executing > 0
    {
      assert LiveAt(s, t, k);
    }
  }

  /**
    The counters are exact: executing is the number of tasks in flight, and with what was executed,
    failed or queued it makes up everything assigned. A response is counted at the node whose
    worker answered, and executing is positive there, so it is never clamped at zero.
   */
  lemma ExactCounters(o: Options, n: nat, events: seq<Event>, r: State)
    requires o.NoStealing() && StaysPut(events) && Run(o, Init(n), events, r)
    ensures forall k :: 0 <= k < |r.nodes| ==> r.nodes[k].executing == |r.nodes[k].running|
    ensures forall k :: 0 <= k < |r.nodes| ==>
      r.nodes[k].executed + r.nodes[k].failed + r.nodes[k].executing + |r.nodes[k].queue| == |AssignedTo(r.accepted, k)|
    ensures forall k, t :: 0 <= k < |r.nodes| && t in r.nodes[k].running ==>
      t.taskId in r.pending && r.pending[t.taskId] == k && r.nodes[k].executing > 0
  {
    RunInPlace(o, n, events, r);
    forall k | 0 <= k < |r.nodes|
      ensures r.nodes[k].executing == |r.nodes[k].running|
      ensures r.nodes[k].executed + r.nodes[k].failed + r.nodes[k].executing + |r.nodes[k].queue|
        == |AssignedTo(r.accepted, k)|
      ensures forall t :: t in r.nodes[k].running ==>
        t.taskId in r.pending && r.pending[t.taskId] == k && r.nodes[k].executing > 0
    {
      CountersInPlace(o, r, k);
    }
  }

  // ---- Totals over the pool ----

  function Handled(a: Node): nat {
    a.executed + a.failed + a.executing + |a.queue|
  }

  function AssignedBelow(accepted: seq<Assignment>, k: nat): nat {
    if accepted == [] then 0
    else AssignedBelow(accepted[..|accepted| - 1], k) + if accepted[|accepted| - 1].key < k then 1 else 0
  }

  lemma {:induction false} AssignedBelowNext(accepted: seq<Assignment>, k: nat)
    ensures AssignedBelow(accepted, k + 1) == AssignedBelow(accepted, k) + |AssignedTo(accepted, k)|
    ensures AssignedBelow(accepted, 0) == 0
    ensures (forall a :: a in accepted ==> a.key < k) ==> AssignedBelow(accepted, k) == |accepted|
  {
    if accepted != [] {
      var last := |accepted| - 1;
      AssignedBelowNext(accepted[..last], k);
      assert accepted[last] in accepted;
    }
  }

  lemma {:induction false} TotalHandled(ns: seq<Node>, accepted: seq<Assignment>)
    requires forall k :: 0 <= k < |ns| ==> Handled(ns[k]) == |AssignedTo(accepted, k)|
    ensures Total(ns, Handled) == AssignedBelow(accepted, |ns|)
  {
    if ns == [] {
      AssignedBelowNext(accepted, 0);
    } else {
      var last := |ns| - 1;
      TotalHandled(ns[..last], accepted);
      AssignedBelowNext(accepted, last);
    }
  }

  function Executed(a: Node): nat {
    a.executed
  }

  function Failed(a: Node): nat {
    a.failed
  }

  lemma {:induction false} TotalsSplit(ns: seq<Node>)
    ensures Total(ns, Executed) + Total(ns, Failed) + Total(ns, Executing) + Total(ns, Queued) == Total(ns, Handled)
  {
    if ns != [] {
      TotalsSplit(ns[..|ns| - 1]);
    }
  }

  /** The totals reported by the pool's info add up to the number of accepted tasks. */
  lemma InfoTotals(o: Options, n: nat, events: seq<Event>, r: State)
    requires o.NoStealing() && StaysPut(events) && Run(o, Init(n), events, r)
    ensures Total(r.nodes, Executed) + Total(r.nodes, Failed) + Total(r.nodes, Executing) + Total(r.nodes, Queued)
      == |r.accepted|
  {
    RunInPlace(o, n, events, r);
    forall k | 0 <= k < |r.nodes| ensures Handled(r.nodes[k]) == |AssignedTo(r.accepted, k)| {
      CountersInPlace(o, r, k);
    }
    TotalHandled(r.nodes, r.accepted);
    AssignedBelowNext(r.accepted, |r.nodes|);
    TotalsSplit(r.nodes);
  }
}
