/**
  What the nodes of a pool say about the events so far: how many tasks each worker's node counts as
  executed and as failed, and which workers are ready.
 */
module Histories {
  import opened WorkerNodes
  import opened Cascade
  import opened PoolMachine
  import opened ExactlyOnce
  import Accounting

  // ---- Answers ----

  /** How many tasks assigned to node k were answered, with an error or without. */
  function AnswersFor(accepted: seq<Assignment>, events: seq<Event>, k: nat, failed: bool): nat {
    if events == [] then 0
    else
      var e := events[|events| - 1];
      AnswersFor(accepted, events[..|events| - 1], k, failed)
        + if e.Response? && e.failed == failed && Assignment(k, e.task) in accepted then 1 else 0
  }

  /** How many tasks were answered, with an error or without. */
  function AnswersOf(events: seq<Event>, failed: bool): nat {
    if events == [] then 0
    else
      var e := events[|events| - 1];
      AnswersOf(events[..|events| - 1], failed) + if e.Response? && e.failed == failed then 1 else 0
  }

  /** All answers are about accepted tasks. */
  ghost predicate AnswersAccepted(accepted: seq<Assignment>, events: seq<Event>) {
    forall e :: e in events && e.Response? ==> exists a :: a in accepted && a.task == e.task
  }

  /** Tasks that come in later do not change what earlier answers count for. */
  lemma {:induction false} AcceptingMore(accepted: seq<Assignment>, a: Assignment, events: seq<Event>,
                                         k: nat, failed: bool)
    requires AnswersAccepted(accepted, events) && forall b :: b in accepted ==> b.task.taskId != a.task.taskId
    ensures AnswersFor(accepted + [a], events, k, failed) == AnswersFor(accepted, events, k, failed)
  {
    if events != [] {
      var last := |events| - 1;
      assert events[last] in events;
      assert forall e :: e in events[..last] ==> e in events;
      AcceptingMore(accepted, a, events[..last], k, failed);
    }
  }

  // ---- What the events do to the counters ----

  /** No node of ns counts more answers in r. */
  ghost predicate SameCounts(ns: seq<Node>, r: seq<Node>) {
    && |r| == |ns|
    && forall j {:trigger r[j]} :: 0 <= j < |ns| ==> r[j].executed == ns[j].executed && r[j].failed == ns[j].failed
  }

  ghost predicate SameReadiness(ns: seq<Node>, r: seq<Node>) {
    |r| == |ns| && forall j {:trigger r[j]} :: 0 <= j < |ns| ==> r[j].ready == ns[j].ready
  }

  lemma CascadeCounts(o: Options, ns: seq<Node>, r: seq<Node>, given: multiset<Task>, taken: multiset<Task>)
    requires Cascaded(o, ns, r, given, taken)
    ensures SameCounts(ns, r) && SameReadiness(ns, r)
  {
    forall j | 0 <= j < |ns|
      ensures r[j].executed == ns[j].executed && r[j].failed == ns[j].failed && r[j].ready == ns[j].ready
    {
      assert Grew(o.concurrency, ns[j], r[j]);
    }
  }

  lemma DequeueCounts(o: Options, ns: seq<Node>, k: nat)
    requires k < |ns| && ns[k].queue != []
    ensures SameCounts(ns, DequeueTask(o, ns, k).nodes) && SameReadiness(ns, DequeueTask(o, ns, k).nodes)
    ensures SameCounts(ns, DequeueAndExecute(o, ns, k)) && SameReadiness(ns, DequeueAndExecute(o, ns, k))
  {
    hide Cascaded;
    var taken := DequeueTask(o, ns, k);
    CascadeCounts(o, ns, taken.nodes, multiset{}, AsMultiset(taken.task));
  }

  lemma RedistributeCounts(o: Options, ns: seq<Node>, k: nat)
    requires k < |ns| && ns[k].queue != []
    ensures SameCounts(ns, RedistributeOne(o, ns, k)) && SameReadiness(ns, RedistributeOne(o, ns, k))
  {
    hide Cascaded, PlaceTask, DequeueTask;
    DequeueCounts(o, ns, k);
    var taken := DequeueTask(o, ns, k);
    CascadeCounts(o, taken.nodes, RedistributeOne(o, ns, k), multiset{taken.task.value}, multiset{});
  }

  lemma WakeCounts(o: Options, ns: seq<Node>, k: nat)
    requires k < |ns| && ns[k].asleep > 0
    ensures SameCounts(ns, Wake(o, ns, k)) && SameReadiness(ns, Wake(o, ns, k))
  {
    hide Cascaded, TaskStealingOnEmptyQueue;
    var n := ns[k].(asleep := ns[k].asleep - 1);
    if !(n.emptyQueueCount > 0 && (n.executing > 0 || n.queue != [])) && o.StealsOnEmptyQueue() {
      var started := ns[k := n][k := n.(emptyQueueCount := n.emptyQueueCount + 1)];
      CascadeCounts(o, started, TaskStealingOnEmptyQueue(o, started, k), multiset{}, multiset{});
    }
  }

  /** Node k counts one more answer, failed or not, and no other node does. */
  ghost predicate CountsOne(ns: seq<Node>, r: seq<Node>, k: nat, failed: bool) {
    && |r| == |ns|
    && forall j {:trigger r[j]} :: 0 <= j < |ns| ==>
      && r[j].executed == ns[j].executed + (if j == k && !failed then 1 else 0)
      && r[j].failed == ns[j].failed + (if j == k && failed then 1 else 0)
  }

  lemma ResponseCounts(o: Options, ns: seq<Node>, k: nat, failed: bool)
    requires k < |ns|
    ensures CountsOne(ns, AfterResponse(o, ns, k, failed), k, failed)
    ensures SameReadiness(ns, AfterResponse(o, ns, k, failed))
  {
    hide Cascaded, DequeueAndExecute;
    var counted := ns[k := CountAnswer(ns[k], failed)];
    if o.enableTasksQueue && counted[k].queue != [] && counted[k].executing < o.concurrency {
      DequeueCounts(o, counted, k);
    }
  }

  /**
    Every event but a response leaves the counts as they were, and only SetReady changes readiness. A
    new node counts nothing.
   */
  lemma OtherEventsCount(o: Options, s: State, e: Event)
    requires Enabled(s, e) && !e.Response?
    ensures |s.nodes| <= |Step(o, s, e).nodes| && SameCounts(s.nodes, Step(o, s, e).nodes[..|s.nodes|])
    ensures e.SetReady? || SameReadiness(s.nodes, Step(o, s, e).nodes[..|s.nodes|])
    ensures |Step(o, s, e).nodes| == |s.nodes| + if e.AddNode? then 1 else 0
    ensures e.AddNode? ==> Step(o, s, e).nodes[|s.nodes|] == NewNode(e.ready)
  {
    hide Cascaded, PlaceTask, Wake, DequeueAndExecute, RedistributeOne;
    match e
    case Execute(j, t) =>
      if o.enableTasksQueue {
        CascadeCounts(o, s.nodes, PlaceTask(o, s.nodes, j, t), multiset{t}, multiset{});
      }
    case StrayResponse(_, _) =>
    case Tick(j) => WakeCounts(o, s.nodes, j);
    case Redistribute(j) => RedistributeCounts(o, s.nodes, j);
    case Flush(j) => DequeueCounts(o, s.nodes, j);
    case AddNode(_) =>
    case SetReady(_, _) =>
  }

  // ---- The counters over runs ----

  /** A promise remembers the node that its task was assigned to. */
  ghost predicate Remembers(s: State) {
    && (forall a :: a in s.accepted ==> a.key < |s.nodes|)
    && forall a :: a in s.accepted && a.task.taskId in s.pending ==> s.pending[a.task.taskId] == a.key
  }

  predicate CountsAt(s: State, events: seq<Event>, k: nat)
    requires k < |s.nodes|
  {
    && s.nodes[k].executed == AnswersFor(s.accepted, events, k, false)
    && s.nodes[k].failed == AnswersFor(s.accepted, events, k, true)
  }

  ghost predicate Counted(s: State, events: seq<Event>) {
    && Remembers(s) && AnswersAccepted(s.accepted, events)
    && forall k: nat :: k < |s.nodes| ==> CountsAt(s, events, k)
  }

  lemma {:induction false} NoAnswersFor(accepted: seq<Assignment>, events: seq<Event>, k: nat, failed: bool)
    requires forall a :: a in accepted ==> a.key < k
    ensures AnswersFor(accepted, events, k, failed) == 0
  {
    if events != [] {
      NoAnswersFor(accepted, events[..|events| - 1], k, failed);
    }
  }

  lemma OneMoreEvent(accepted: seq<Assignment>, events: seq<Event>, e: Event, k: nat, failed: bool)
    ensures AnswersFor(accepted, events + [e], k, failed) == AnswersFor(accepted, events, k, failed)
      + if e.Response? && e.failed == failed && Assignment(k, e.task) in accepted then 1 else 0
    ensures AnswersOf(events + [e], failed) == AnswersOf(events, failed)
      + if e.Response? && e.failed == failed then 1 else 0
  {
    assert (events + [e])[..|events|] == events;
  }

  /** A task that its worker still has was accepted for the node that its promise remembers, and for no other. */
  lemma RunningAssigned(s: State, k: nat, t: Task)
    requires Accounted(s) && Remembers(s) && k < |s.nodes| && t in s.nodes[k].running
    ensures t.taskId in s.pending && s.pending[t.taskId] < |s.nodes|
    ensures forall j: nat :: Assignment(j, t) in s.accepted <==> j == s.pending[t.taskId]
  {
    hide Sum, Tasks, Ids;
    AnswerRunning(s, k, t);
    Accounting.LiveIdAccepted(s, t, k);
    var a :| a in s.accepted && a.task == t;
    assert a == Assignment(s.pending[t.taskId], t);
  }

  lemma ResponseCounted(o: Options, s: State, events: seq<Event>, k: nat, t: Task, failed: bool)
    requires Accounted(s) && Counted(s, events) && Enabled(s, Response(k, t, failed))
    ensures Counted(Step(o, s, Response(k, t, failed)), events + [Response(k, t, failed)])
    ensures t.taskId in s.pending
    ensures CountsOne(s.nodes, Step(o, s, Response(k, t, failed)).nodes, s.pending[t.taskId], failed)
    ensures SameReadiness(s.nodes, Step(o, s, Response(k, t, failed)).nodes)
  {
    hide Accounted, AfterResponse;
    var e, ns := Response(k, t, failed), s.nodes[k := Answered(s.nodes[k], t)];
    var r := Step(o, s, e);
    RunningAssigned(s, k, t);
    var key := s.pending[t.taskId];
    ResponseCounts(o, ns, key, failed);
    assert Assignment(key, t) in s.accepted;
    forall j: nat | j < |r.nodes| ensures CountsAt(r, events + [e], j) {
      assert CountsAt(s, events, j);
      OneMoreEvent(s.accepted, events, e, j, false);
      OneMoreEvent(s.accepted, events, e, j, true);
    }
  }

  lemma ExecuteRemembers(o: Options, s: State, k: nat, t: Task)
    requires Remembers(s) && Enabled(s, Execute(k, t))
    ensures Remembers(Step(o, s, Execute(k, t)))
  {
    hide SubmitTask;
  }

  lemma OtherCounted(o: Options, s: State, events: seq<Event>, e: Event)
    requires Counted(s, events) && Enabled(s, e) && !e.Response?
    ensures Counted(Step(o, s, e), events + [e])
  {
    hide Step, AnswersFor;
    var r := Step(o, s, e);
    OtherEventsCount(o, s, e);
    OtherRemembers(o, s, e);
    forall j: nat | j < |r.nodes| ensures CountsAt(r, events + [e], j) {
      OneMoreEvent(r.accepted, events, e, j, false);
      OneMoreEvent(r.accepted, events, e, j, true);
      if e.Execute? {
        AcceptingMore(s.accepted, Assignment(e.key, e.task), events, j, false);
        AcceptingMore(s.accepted, Assignment(e.key, e.task), events, j, true);
      }
      if j < |s.nodes| {
        assert CountsAt(s, events, j);
        assert r.nodes[j] == r.nodes[..|s.nodes|][j];
      } else {
        NoAnswersFor(s.accepted, events, j, false);
        NoAnswersFor(s.accepted, events, j, true);
      }
    }
  }

  lemma OtherRemembers(o: Options, s: State, e: Event)
    requires Remembers(s) && Enabled(s, e) && !e.Response?
    ensures var r := Step(o, s, e);
      && Remembers(r) && (e.Execute? ==> Enabled(s, Execute(e.key, e.task)) && |r.nodes| == |s.nodes|)
      && r.accepted == if e.Execute? then s.accepted + [Assignment(e.key, e.task)] else s.accepted
  {
    hide SubmitTask, Wake, DequeueAndExecute, RedistributeOne;
    if e.Execute? {
      ExecuteRemembers(o, s, e.key, e.task);
    }
  }

  lemma {:induction false} RunCounted(o: Options, n: nat, events: seq<Event>, r: State)
    requires Run(o, Init(n), events, r)
    ensures Counted(r, events)
    decreases |events|
  {
    hide Step, Enabled, Counted, Accounted;
    if events == [] {
      StartCounted(n);
    } else {
      var last := |events| - 1;
      var m :| Run(o, Init(n), events[..last], m) && Enabled(m, events[last]) && r == Step(o, m, events[last]);
      RunCounted(o, n, events[..last], m);
      RunAccounted(o, n, events[..last], m);
      assert events[..last] + [events[last]] == events;
      match events[last] {
        case Response(k, t, failed) => ResponseCounted(o, m, events[..last], k, t, failed);
        case _ => OtherCounted(o, m, events[..last], events[last]);
      }
    }
  }

  lemma StartCounted(n: nat)
    ensures Counted(Init(n), [])
  {
  }

  /**
    In every reachable state, under any options and whatever moved: a node counts as failed the answers
    with an error to the tasks that were assigned to it, and as executed those without; and so the pool
    counts as failed all answers with an error, and as executed all others.
   */
  lemma AnswersAreCounted(o: Options, n: nat, events: seq<Event>, r: State)
    requires Run(o, Init(n), events, r)
    ensures forall k: nat :: k < |r.nodes| ==>
      && r.nodes[k].failed == AnswersFor(r.accepted, events, k, true)
      && r.nodes[k].executed == AnswersFor(r.accepted, events, k, false)
    ensures Total(r.nodes, Accounting.Failed) == AnswersOf(events, true)
    ensures Total(r.nodes, Accounting.Executed) == AnswersOf(events, false)
  {
    RunCounted(o, n, events, r);
    forall k: nat | k < |r.nodes|
      ensures r.nodes[k].failed == AnswersFor(r.accepted, events, k, true)
      ensures r.nodes[k].executed == AnswersFor(r.accepted, events, k, false)
    {
      assert CountsAt(r, events, k);
    }
    TotalAnswers(o, n, events, r);
  }

  // ---- Totals ----

  lemma {:induction false} SameTotals(ns: seq<Node>, r: seq<Node>)
    requires SameCounts(ns, r)
    ensures Total(r, Accounting.Failed) == Total(ns, Accounting.Failed)
    ensures Total(r, Accounting.Executed) == Total(ns, Accounting.Executed)
  {
    if ns != [] {
      SameTotals(ns[..|ns| - 1], r[..|r| - 1]);
    }
  }

  lemma {:induction false} OneMoreInTotal(ns: seq<Node>, r: seq<Node>, k: nat, failed: bool)
    requires CountsOne(ns, r, k, failed)
    ensures Total(r, Accounting.Failed) == Total(ns, Accounting.Failed) + if k < |ns| && failed then 1 else 0
    ensures Total(r, Accounting.Executed) == Total(ns, Accounting.Executed) + if k < |ns| && !failed then 1 else 0
  {
    if ns != [] {
      OneMoreInTotal(ns[..|ns| - 1], r[..|r| - 1], k, failed);
    }
  }

  lemma {:induction false} NewTotals(ns: seq<Node>, n: nat)
    requires n <= |ns| && forall j :: n <= j < |ns| ==> ns[j].executed == 0 == ns[j].failed
    ensures Total(ns, Accounting.Failed) == Total(ns[..n], Accounting.Failed)
    ensures Total(ns, Accounting.Executed) == Total(ns[..n], Accounting.Executed)
  {
    if n == |ns| {
      assert ns[..n] == ns;
    } else {
      assert ns[..|ns| - 1][..n] == ns[..n];
      NewTotals(ns[..|ns| - 1], n);
    }
  }

  lemma {:induction false} TotalAnswers(o: Options, n: nat, events: seq<Event>, r: State)
    requires Run(o, Init(n), events, r)
    ensures Total(r.nodes, Accounting.Failed) == AnswersOf(events, true)
    ensures Total(r.nodes, Accounting.Executed) == AnswersOf(events, false)
    decreases |events|
  {
    hide Step, Accounted, Total, AnswersFor;
    if events == [] {
      NewTotals(r.nodes, 0);
      NoTotals();
    } else {
      var last := |events| - 1;
      var m :| Run(o, Init(n), events[..last], m) && Enabled(m, events[last]) && r == Step(o, m, events[last]);
      TotalAnswers(o, n, events[..last], m);
      match events[last] {
        case Response(k, t, failed) =>
          RunCounted(o, n, events[..last], m);
          RunAccounted(o, n, events[..last], m);
          RunningAssigned(m, k, t);
          ResponseCounted(o, m, events[..last], k, t, failed);
          OneMoreInTotal(m.nodes, r.nodes, m.pending[t.taskId], failed);
        case _ =>
          OtherEventsCount(o, m, events[last]);
          SameTotals(m.nodes, r.nodes[..|m.nodes|]);
          NewTotals(r.nodes, |m.nodes|);
      }
    }
  }

  lemma NoTotals()
    ensures Total([], Accounting.Failed) == 0 && Total([], Accounting.Executed) == 0
  {
  }

  // ---- Readiness ----

  /** The number of workers after the events, n at first. */
  function WorkersAfter(n: nat, events: seq<Event>): nat {
    if events == [] then n
    else WorkersAfter(n, events[..|events| - 1]) + if events[|events| - 1].AddNode? then 1 else 0
  }

  /** What the last event about worker k said; at first all workers are ready. */
  function SaidReady(n: nat, events: seq<Event>, k: nat): bool {
    if events == [] then true
    else
      var front := events[..|events| - 1];
      match events[|events| - 1]
      case SetReady(key, ready) => if key == k then ready else SaidReady(n, front, k)
      case AddNode(ready) => if WorkersAfter(n, front) == k then ready else SaidReady(n, front, k)
      case _ => SaidReady(n, front, k)
  }

  /** In every reachable state, whatever happened to its tasks, a worker is as ready as was said last. */
  lemma {:induction false} ReadyAsSaid(o: Options, n: nat, events: seq<Event>, r: State)
    requires Run(o, Init(n), events, r)
    ensures |r.nodes| == WorkersAfter(n, events)
    ensures forall k: nat :: k < |r.nodes| ==> r.nodes[k].ready == SaidReady(n, events, k)
    decreases |events|
  {
    hide Accounted, Counted;
    if events != [] {
      var last := |events| - 1;
      var m :| Run(o, Init(n), events[..last], m) && Enabled(m, events[last]) && r == Step(o, m, events[last]);
      ReadyAsSaid(o, n, events[..last], m);
      StepReadiness(o, n, events[..last], m, events[last]);
    }
  }

  lemma StepReadiness(o: Options, n: nat, events: seq<Event>, m: State, e: Event)
    requires Run(o, Init(n), events, m) && Enabled(m, e)
    ensures var r := Step(o, m, e);
      && |r.nodes| == |m.nodes| + (if e.AddNode? then 1 else 0)
      && forall j {:trigger r.nodes[j]} :: 0 <= j < |r.nodes| ==> (
           r.nodes[j].ready ==
             if e.SetReady? && e.key == j then e.ready
             else if j < |m.nodes| then m.nodes[j].ready
             else e.AddNode? && e.ready)
  {
    hide Accounted, Counted, Run;
    var r := Step(o, m, e);
    match e {
      case Response(k, t, failed) =>
        hide Step;
        RunCounted(o, n, events, m);
        RunAccounted(o, n, events, m);
        ResponseCounted(o, m, events, k, t, failed);
      case SetReady(_, _) =>
      case _ =>
        hide Step;
        OtherEventsCount(o, m, e);
        forall j | 0 <= j < |m.nodes| ensures r.nodes[j].ready == m.nodes[j].ready {
          assert r.nodes[..|m.nodes|][j] == r.nodes[j];
        }
    }
  }
}
