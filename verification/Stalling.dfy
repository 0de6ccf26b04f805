/**
  Whether a waiting task can rely on its own worker. While tasks stay where they were assigned it
  can: a worker with waiting tasks really has its quota in flight, so a response will come. Once a
  task is stolen, its response is counted at the node it was assigned to rather than the node that
  ran it, and every kind of stealing leads some pool to a state in which a task waits for ever.
 */
module Stalling {
  import opened Wrappers
  import opened WorkerNodes
  import opened Cascade
  import opened PoolMachine
  import opened ExactlyOnce
  import opened Accounting
  import opened StealingOrder
  import Quota

  /** Without moves, a worker with waiting tasks has at least its quota of tasks in flight. */
  lemma NoStall(o: Options, n: nat, events: seq<Event>, r: State)
    requires o.enableTasksQueue && o.NoStealing() && StaysPut(events) && Run(o, Init(n), events, r)
    ensures forall k :: 0 <= k < |r.nodes| && r.nodes[k].queue != [] ==> o.concurrency <= |r.nodes[k].running|
    ensures (forall e :: e in events ==> !e.Flush?) ==>
      forall k :: 0 <= k < |r.nodes| ==> |r.nodes[k].running| <= o.concurrency
  {
    hide Run;
    Quota.QuotaAndStealLoops(o, n, events, r);
    ExactCounters(o, n, events, r);
  }

  // ---- Reaching states of a pool of two workers ----

  /** Nothing is redistributed and no queue is flushed. */
  predicate Calm(events: seq<Event>) {
    forall e :: e in events ==> !e.Redistribute? && !e.Flush?
  }

  ghost predicate Reached(o: Options, s: State) {
    exists events :: Calm(events) && Run(o, Init(2), events, s)
  }

  lemma ReachedThen(o: Options, s: State, e: Event)
    requires Reached(o, s) && Enabled(s, e) && !e.Redistribute? && !e.Flush?
    ensures Reached(o, Step(o, s, e))
  {
    hide Run, Step, Enabled;
    var events :| Calm(events) && Run(o, Init(2), events, s);
    RunThen(o, Init(2), events, s, e);
    assert Calm(events + [e]);
  }

  /** The key remembered for a pending task is the one it was accepted with. */
  ghost predicate Remembers(s: State) {
    forall a :: a in s.accepted && a.task.taskId in s.pending ==> s.pending[a.task.taskId] == a.key
  }

  lemma StepRemembers(o: Options, s: State, e: Event)
    requires Remembers(s) && Enabled(s, e)
    ensures Remembers(Step(o, s, e))
  {
    hide SubmitTask, AfterResponse, StartOnEmptyQueue, RedistributeOne, DequeueAndExecute;
  }

  lemma {:induction false} RunRemembers(o: Options, n: nat, events: seq<Event>, r: State)
    requires Run(o, Init(n), events, r)
    ensures Remembers(r)
    decreases |events|
  {
    hide Step, Enabled, Remembers;
    if events == [] {
      assert Remembers(r) by { NothingToRemember(n); }
    } else {
      var last := |events| - 1;
      var m :| Run(o, Init(n), events[..last], m) && Enabled(m, events[last]) && r == Step(o, m, events[last]);
      RunRemembers(o, n, events[..last], m);
      StepRemembers(o, m, events[last]);
    }
  }

  lemma NothingToRemember(n: nat)
    ensures Remembers(Init(n))
  {
  }

  /** A task in flight is pending, with the key it was accepted with. */
  lemma RunningIsPending(o: Options, s: State, k: nat, t: Task, owner: nat)
    requires Reached(o, s) && k < |s.nodes| && t in s.nodes[k].running && Assignment(owner, t) in s.accepted
    ensures t.taskId in s.pending && s.pending[t.taskId] == owner
  {
    hide Run, Calm;
    var events :| Calm(events) && Run(o, Init(2), events, s);
    ExactlyOnceDispatch(o, 2, events, s);
    RunRemembers(o, 2, events, s);
    assert LiveAt(s, t, k);
  }

  /** Two workers, and task ids handed out in order. */
  ghost predicate Pair(o: Options, s: State) {
    && Reached(o, s)
    && |s.nodes| == 2
    && o.enableTasksQueue && 0 < o.concurrency
    && forall a :: a in s.accepted ==> a.task.taskId < |s.accepted|
  }

  /** All that node k holds was assigned to it. */
  ghost predicate Own(s: State, k: nat) {
    forall t :: LiveAt(s, t, k) ==> Assignment(k, t) in s.accepted
  }

  /** Ready, with no callback under way and no steal loop. */
  predicate Still(n: Node) {
    n.ready && !n.backPressureStarted && n.emptyQueueCount == 0 && n.asleep == 0
  }

  function NewTask(s: State): Task {
    Task(|s.accepted|, "task")
  }

  function Queue(n: Node, t: Task): Node {
    n.(queue := n.queue + [t])
  }

  lemma Submit(o: Options, s: State, k: nat) returns (r: State)
    requires Pair(o, s) && k < 2
    ensures Pair(o, r) && r.nodes == PlaceTask(o, s.nodes, k, NewTask(s))
    ensures r.accepted == s.accepted + [Assignment(k, NewTask(s))]
  {
    hide PlaceTask, Reached;
    ReachedThen(o, s, Execute(k, NewTask(s)));
    r := Step(o, s, Execute(k, NewTask(s)));
  }

  /** A submission that steals nothing. */
  lemma SubmitPlain(o: Options, s: State, k: nat) returns (r: State)
    requires Pair(o, s) && k < 2
    requires ShallExecuteTask(o, s.nodes, k) || o.NoStealing() || o.size <= 1 || |s.nodes[k].queue| + 1 < o.size
    ensures Pair(o, r)
    ensures var n := s.nodes[k];
      r.nodes == s.nodes[k := if ShallExecuteTask(o, s.nodes, k) then Send(n, NewTask(s)) else Queue(n, NewTask(s))]
    ensures r.accepted == s.accepted + [Assignment(k, NewTask(s))]
    ensures forall j: nat :: j < 2 && Own(s, j) ==> Own(r, j)
  {
    hide EnqueueTask, Cascaded, WorkConserving, Pair;
    assert |s.nodes| == 2 by { PairOf(o, s); }
    r := Submit(o, s, k);
    if !ShallExecuteTask(o, s.nodes, k) {
      EnqueuePlain(o, s.nodes, k, NewTask(s));
    }
    forall j: nat | j < 2 && Own(s, j) ensures Own(r, j) {
      forall t | LiveAt(r, t, j) ensures Assignment(j, t) in r.accepted {
        assert LiveAt(s, t, j) || (t == NewTask(s) && j == k);
      }
    }
  }

  lemma PairOf(o: Options, s: State)
    requires Pair(o, s)
    ensures Reached(o, s) && |s.nodes| == 2 && o.enableTasksQueue && 0 < o.concurrency
  {
  }

  /** Worker k answers task t, which was assigned to `owner`. */
  lemma Answer(o: Options, s: State, k: nat, t: Task, owner: nat) returns (r: State)
    requires Pair(o, s) && k < 2 && owner < 2 && t in s.nodes[k].running && Assignment(owner, t) in s.accepted
    ensures Pair(o, r) && r.accepted == s.accepted
    ensures r.nodes == AfterResponse(o, s.nodes[k := Answered(s.nodes[k], t)], owner, false)
  {
    hide AfterResponse, Reached;
    RunningIsPending(o, s, k, t, owner);
    ReachedThen(o, s, Response(k, t, false));
    r := Step(o, s, Response(k, t, false));
  }

  /** The timer of a node that has tasks in flight ends its steal loop. */
  lemma StopLoop(o: Options, s: State, k: nat) returns (r: State)
    requires Pair(o, s) && k < 2
    requires s.nodes[k].asleep > 0 && s.nodes[k].emptyQueueCount > 0 && s.nodes[k].executing > 0
    ensures Pair(o, r) && r.accepted == s.accepted
    ensures r.nodes == s.nodes[k := s.nodes[k].(asleep := s.nodes[k].asleep - 1, emptyQueueCount := 0)]
  {
    hide StealRound, Reached;
    ReachedThen(o, s, Tick(k));
    r := Step(o, s, Tick(k));
  }

  // ---- Filling a worker and letting it finish ----

  lemma {:induction false} Fill(o: Options, s: State, k: nat) returns (r: State)
    requires Pair(o, s) && k < 2 && s.nodes[k].queue == [] && s.nodes[k].executing <= o.concurrency
    ensures Pair(o, r) && s.accepted <= r.accepted && r.nodes[1 - k] == s.nodes[1 - k]
    ensures var n, m := s.nodes[k], r.nodes[k];
      && m == n.(executing := o.concurrency, sent := m.sent, running := m.running)
      && |m.running| == |n.running| + (o.concurrency - n.executing)
    ensures forall j: nat :: j < 2 && Own(s, j) ==> Own(r, j)
    decreases o.concurrency - s.nodes[k].executing
  {
    hide Reached, Own;
    if s.nodes[k].executing == o.concurrency {
      r := s;
    } else {
      var next := SubmitPlain(o, s, k);
      r := Fill(o, next, k);
    }
  }

  lemma {:induction false} FillQueue(o: Options, s: State, k: nat, length: nat) returns (r: State)
    requires Pair(o, s) && k < 2 && s.nodes[k].executing >= o.concurrency && |s.nodes[k].queue| <= length < o.size
    ensures Pair(o, r) && s.accepted <= r.accepted && r.nodes[1 - k] == s.nodes[1 - k]
    ensures r.nodes[k] == s.nodes[k].(queue := r.nodes[k].queue) && |r.nodes[k].queue| == length
    ensures forall j: nat :: j < 2 && Own(s, j) ==> Own(r, j)
    decreases length - |s.nodes[k].queue|
  {
    hide Reached, Own;
    if |s.nodes[k].queue| == length {
      r := s;
    } else {
      var next := SubmitPlain(o, s, k);
      r := FillQueue(o, next, k, length);
    }
  }

  /** A worker that can finish: with tasks waiting, there are as many in flight as it takes to get them going. */
  predicate Drainable(o: Options, n: Node) {
    n.queue != [] ==> !o.StealsOnEmptyQueue() && o.concurrency <= n.executing <= |n.running|
  }

  /** Node n after the answer to its task t, and the dispatch that may follow. */
  function Refilled(o: Options, n: Node, t: Task): Node {
    var counted := CountAnswer(Answered(n, t), false);
    if counted.queue != [] && counted.executing < o.concurrency
    then Send(counted.(queue := counted.queue[1..]), counted.queue[0]) else counted
  }

  lemma ResponseRefills(o: Options, ns: seq<Node>, k: nat, t: Task)
    requires k < |ns| && o.enableTasksQueue && Drainable(o, ns[k])
    ensures AfterResponse(o, ns[k := Answered(ns[k], t)], k, false) == ns[k := Refilled(o, ns[k], t)]
  {
    hide Cascaded, WorkConserving, DequeueAndExecute;
    var counted := CountAnswer(Answered(ns[k], t), false);
    var answered := ns[k := Answered(ns[k], t)][k := counted];
    if counted.queue != [] && counted.executing < o.concurrency {
      DequeuePlain(o, answered, k);
    }
  }

  lemma RefillShrinks(o: Options, n: Node, t: Task)
    requires t in n.running && Drainable(o, n) && 0 < o.concurrency
    ensures var m := Refilled(o, n, t);
      && Drainable(o, m) && m.ready == n.ready && m.asleep == n.asleep
      && |m.running| + |m.queue| < |n.running| + |n.queue|
      && forall u :: u in Live(m) ==> u in Live(n)
  {
    if n.queue != [] {
      assert n.queue == [n.queue[0]] + n.queue[1..];
    }
  }

  lemma DrainOne(o: Options, s: State, k: nat) returns (r: State)
    requires Pair(o, s) && k < 2 && Own(s, k) && Drainable(o, s.nodes[k]) && s.nodes[k].running != multiset{}
    ensures Pair(o, r) && Own(r, k) && r.nodes[1 - k] == s.nodes[1 - k]
    ensures var n, m := s.nodes[k], r.nodes[k];
      && Drainable(o, m) && m.ready == n.ready && m.asleep == n.asleep
      && |m.running| + |m.queue| < |n.running| + |n.queue|
  {
    hide Reached, AfterResponse, Refilled, Drainable;
    var n := s.nodes[k];
    var t :| t in n.running;
    assert LiveAt(s, t, k);
    r := Answer(o, s, k, t, k);
    ResponseRefills(o, s.nodes, k, t);
    RefillShrinks(o, n, t);
    forall u | LiveAt(r, u, k) ensures Assignment(k, u) in r.accepted {
      assert u in Live(r.nodes[k]);
      assert u in Live(n);
      assert LiveAt(s, u, k);
    }
  }

  lemma {:induction false} Drain(o: Options, s: State, k: nat) returns (r: State)
    requires Pair(o, s) && k < 2 && Own(s, k) && Drainable(o, s.nodes[k])
    ensures Pair(o, r) && r.nodes[1 - k] == s.nodes[1 - k]
    ensures r.nodes[k].running == multiset{} && r.nodes[k].ready == s.nodes[k].ready && r.nodes[k].asleep == s.nodes[k].asleep
    decreases |s.nodes[k].running| + |s.nodes[k].queue|
  {
    hide Reached, Own, Drainable;
    if s.nodes[k].running == multiset{} {
      r := s;
    } else {
      var next := DrainOne(o, s, k);
      r := Drain(o, next, k);
    }
  }

  lemma Start(o: Options)
    requires o.enableTasksQueue && 0 < o.concurrency
    ensures Pair(o, Init(2)) && Own(Init(2), 0) && Own(Init(2), 1)
    ensures Init(2).nodes == [NewNode(true), NewNode(true)]
  {
    assert Calm([]) && Run(o, Init(2), [], Init(2));
  }

  /** A task waits, nothing is in flight, every worker is ready and no timer is set. */
  ghost predicate Stalled(s: State) {
    && (exists k :: 0 <= k < |s.nodes| && s.nodes[k].queue != [])
    && forall k :: 0 <= k < |s.nodes| ==>
      (s.nodes[k].ready && s.nodes[k].running == multiset{} && s.nodes[k].asleep == 0)
  }

  // ---- Stealing on an empty queue ----

  lemma NoSource(o: Options, ns: seq<Node>, k: nat)
    requires |ns| == 2 && k < 2 && ns[1 - k].queue == []
    ensures TaskStealingOnEmptyQueue(o, ns, k) == ns
  {
    hide Cascaded, WorkConserving, StealTask, FindSource, KeysByQueued;
  }

  lemma FirstIsSource(ns: seq<Node>)
    requires |ns| == 2 && ns[0].queue != [] && ns[0].ready
    ensures FindSource(ns, 1, KeysByQueued(ns, true, 2)) == Some(0)
  {
    hide FindSource, KeysByQueued;
    StealsFromFullest(ns, 1);
    assert CanStealFrom(ns, 1, 0);
  }

  /** The only task of node 0 is popped while node 1 has none: node 0 starts a steal loop in vain. */
  lemma PopOnly(o: Options, ns: seq<Node>)
    requires |ns| == 2 && o.StealsOnEmptyQueue() && |ns[0].queue| == 1 && ns[1].queue == []
    requires ns[0].emptyQueueCount == 0
    ensures PopTask(o, ns, 0) == Taken(Some(ns[0].queue[0]),
      ns[0 := ns[0].(queue := [], emptyQueueCount := 1, asleep := ns[0].asleep + 1)])
  {
    hide Cascaded, WorkConserving, TaskStealingOnEmptyQueue;
    var popped := ns[0 := ns[0].(queue := ns[0].queue[..0])];
    NoSource(o, popped[0 := popped[0].(emptyQueueCount := 1)], 0);
  }

  /** Node 1 steals the only task of node 0 and executes it. */
  lemma StealOnly(o: Options, ns: seq<Node>)
    requires |ns| == 2 && o.StealsOnEmptyQueue() && |ns[0].queue| == 1 && ns[1].queue == []
    requires ns[0].emptyQueueCount == 0 && ns[0].ready && ns[1].executing < o.concurrency
    ensures var b := Send(ns[1], ns[0].queue[0]);
      TaskStealingOnEmptyQueue(o, ns, 1) ==
        [ns[0].(queue := [], emptyQueueCount := 1, asleep := ns[0].asleep + 1), b.(stolen := b.stolen + 1)]
  {
    hide Cascaded, WorkConserving, PopTask, FindSource, KeysByQueued;
    FirstIsSource(ns);
    PopOnly(o, ns);
    var popped := PopTask(o, ns, 0).nodes;
    var b := Send(ns[1], ns[0].queue[0]);
    assert popped[1] == ns[1];
    assert PlaceTask(o, popped, 1, ns[0].queue[0]) == popped[1 := b];
    assert StealTask(o, ns, 0, 1) == popped[1 := b][1 := b.(stolen := b.stolen + 1)];
  }

  /** What becomes of the two nodes when the last queued task of node 1 goes out. */
  lemma DequeueAndSteal(o: Options, ns: seq<Node>)
    requires |ns| == 2 && o.StealsOnEmptyQueue() && |ns[0].queue| == 1 && |ns[1].queue| == 1
    requires ns[0].emptyQueueCount == ns[1].emptyQueueCount == 0 && ns[0].ready && ns[1].executing < o.concurrency
    ensures var r := DequeueAndExecute(o, ns, 1);
      var t, u := ns[0].queue[0], ns[1].queue[0];
      var b := Send(Send(ns[1], t), u);
      r == [ns[0].(queue := [], emptyQueueCount := 1, asleep := ns[0].asleep + 1),
            b.(queue := [], emptyQueueCount := 1, asleep := b.asleep + 1, stolen := b.stolen + 1)]
  {
    hide Cascaded, WorkConserving, TaskStealingOnEmptyQueue;
    var shifted := ns[1 := ns[1].(queue := ns[1].queue[1..])];
    StealOnly(o, shifted[1 := shifted[1].(emptyQueueCount := 1)]);
  }

  /** Both workers have their quota executing by their counters, but worker 0 has p tasks more in flight, and worker 1 p less. */
  ghost predicate EmptyQueueRound(o: Options, s: State, p: nat) {
    && Pair(o, s) && Own(s, 0) && Own(s, 1) && Still(s.nodes[0]) && Still(s.nodes[1])
    && s.nodes[0].queue == s.nodes[1].queue == []
    && s.nodes[0].executing == s.nodes[1].executing == o.concurrency
    && |s.nodes[0].running| == o.concurrency + p
    && |s.nodes[1].running| + p == o.concurrency
  }

  lemma FirstEmptyQueueRound(o: Options) returns (r: State)
    requires o.enableTasksQueue && 0 < o.concurrency
    ensures EmptyQueueRound(o, r, 0)
  {
    hide Own, Reached;
    Start(o);
    var s := Fill(o, Init(2), 0);
    r := Fill(o, s, 1);
  }

  /** Each worker gets a task to wait; then worker 1 answers one of its own, v, and takes both. */
  lemma Swap(o: Options, s: State, p: nat) returns (r: State, t: Task, u: Task, v: Task)
    requires o.StealsOnEmptyQueue() && EmptyQueueRound(o, s, p) && p < o.concurrency
    ensures Pair(o, r) && s.accepted <= r.accepted
    ensures v in s.nodes[1].running && Assignment(0, t) in r.accepted && Assignment(1, u) in r.accepted
    ensures var a, b := s.nodes[0], r.nodes[1];
      && r.nodes[0] == a.(emptyQueueCount := 1, asleep := 1)
      && Still(b.(emptyQueueCount := 0, asleep := 0)) && b.emptyQueueCount == b.asleep == 1
      && b.queue == [] && b.executing == o.concurrency + 1
      && b.running == s.nodes[1].running - multiset{v} + multiset{t} + multiset{u}
  {
    hide Reached, Own, AfterResponse, DequeueAndExecute;
    t := NewTask(s);
    var s1 := SubmitPlainBelow(o, s, 0);
    u := NewTask(s1);
    var s2 := SubmitPlainBelow(o, s1, 1);
    v :| v in s.nodes[1].running;
    assert Assignment(1, v) in s.accepted by { OwnRunning(s, 1, v); }
    r := Answer(o, s2, 1, v, 1);
    var answered := s2.nodes[1 := Answered(s2.nodes[1], v)];
    var counted := answered[1 := CountAnswer(answered[1], false)];
    AfterResponseDequeues(o, answered, 1);
    DequeueAndSteal(o, counted);
  }

  lemma OwnRunning(s: State, k: nat, t: Task)
    requires Own(s, k) && k < |s.nodes| && t in s.nodes[k].running
    ensures Assignment(k, t) in s.accepted
  {
    assert LiveAt(s, t, k);
  }

  lemma AfterResponseDequeues(o: Options, ns: seq<Node>, k: nat)
    requires k < |ns| && o.enableTasksQueue && ns[k].queue != [] && 0 < ns[k].executing <= o.concurrency
    ensures AfterResponse(o, ns, k, false) == DequeueAndExecute(o, ns[k := CountAnswer(ns[k], false)], k)
  {
    hide DequeueAndExecute;
  }

  lemma AfterResponseCounts(o: Options, ns: seq<Node>, k: nat)
    requires k < |ns| && ns[k].queue == []
    ensures AfterResponse(o, ns, k, false) == ns[k := CountAnswer(ns[k], false)]
  {
  }

  /** A submission to a node whose quota is executing and whose queue is empty: a queue of one is stolen from by nobody. */
  lemma SubmitPlainBelow(o: Options, s: State, k: nat) returns (r: State)
    requires Pair(o, s) && k < 2 && s.nodes[k].queue == [] && s.nodes[k].executing >= o.concurrency
    ensures Pair(o, r) && r.accepted == s.accepted + [Assignment(k, NewTask(s))]
    ensures r.nodes == s.nodes[k := s.nodes[k].(queue := [NewTask(s)])]
    ensures forall j: nat :: j < 2 && Own(s, j) ==> Own(r, j)
  {
    hide Reached, Own;
    r := SubmitPlain(o, s, k);
    assert [] + [NewTask(s)] == [NewTask(s)];
  }

  /** Both loops end, and worker 1 answers the stolen task and the one it had waiting. */
  lemma SwapAnswered(o: Options, s: State, p: nat) returns (r: State, v: Task)
    requires o.StealsOnEmptyQueue() && EmptyQueueRound(o, s, p) && p < o.concurrency
    ensures Pair(o, r) && s.accepted <= r.accepted && v in s.nodes[1].running
    ensures Still(r.nodes[0]) && Still(r.nodes[1]) && r.nodes[0].queue == r.nodes[1].queue == []
    ensures r.nodes[0].executing == o.concurrency - 1 && r.nodes[1].executing == o.concurrency
    ensures r.nodes[0].running == s.nodes[0].running
    ensures r.nodes[1].running == s.nodes[1].running - multiset{v}
  {
    hide Reached, AfterResponse, Own;
    var s1, t, u, taken := Swap(o, s, p);
    v := taken;
    var s2 := StopLoop(o, s1, 0);
    var s3 := StopLoop(o, s2, 1);
    var s4 := Answer(o, s3, 1, t, 0);
    AfterResponseCounts(o, s3.nodes[1 := Answered(s3.nodes[1], t)], 0);
    r := Answer(o, s4, 1, u, 1);
    AfterResponseCounts(o, s4.nodes[1 := Answered(s4.nodes[1], u)], 1);
    assert s4.nodes[1].running == s.nodes[1].running - multiset{v} + multiset{u};
  }

  lemma NextEmptyQueueRound(o: Options, s: State, p: nat) returns (r: State)
    requires o.StealsOnEmptyQueue() && EmptyQueueRound(o, s, p) && p < o.concurrency
    ensures EmptyQueueRound(o, r, p + 1)
  {
    hide Reached, Own;
    var next, v := SwapAnswered(o, s, p);
    StillOwn(s, next, 0);
    StillOwn(s, next, 1);
    r := Fill(o, next, 0);
  }

  lemma StillOwn(s: State, r: State, k: nat)
    requires k < |s.nodes| == |r.nodes| && Own(s, k) && s.accepted <= r.accepted
    requires r.nodes[k].running <= s.nodes[k].running && r.nodes[k].queue == s.nodes[k].queue
    ensures Own(r, k)
  {
    forall t | LiveAt(r, t, k) ensures Assignment(k, t) in r.accepted {
      assert LiveAt(s, t, k);
    }
  }

  lemma {:induction false} LastEmptyQueueRound(o: Options, s: State, p: nat) returns (r: State)
    requires o.StealsOnEmptyQueue() && EmptyQueueRound(o, s, p)
    ensures EmptyQueueRound(o, r, o.concurrency)
    decreases o.concurrency - p
  {
    if p == o.concurrency {
      r := s;
    } else {
      var next := NextEmptyQueueRound(o, s, p);
      r := LastEmptyQueueRound(o, next, p + 1);
    }
  }

  lemma EmptyQueueStealingStalls(o: Options) returns (r: State)
    requires o.StealsOnEmptyQueue() && 0 < o.concurrency
    ensures Reached(o, r) && Stalled(r)
  {
    hide Reached, Own;
    var s0 := FirstEmptyQueueRound(o);
    var s := LastEmptyQueueRound(o, s0, 0);
    var full := SubmitPlainBelow(o, s, 1);
    r := Drain(o, full, 0);
    assert r.nodes[1] == full.nodes[1] && r.nodes[1].queue != [];
    assert |s.nodes[1].running| == 0;
  }

  // ---- Stealing under back pressure ----

  /** With two workers, a full worker 1 hands its last task to worker 0 when that one has room. */
  lemma RelieveSecondWorker(o: Options, ns: seq<Node>)
    requires |ns| == 2 && |ns[1].queue| > 1
    requires ns[0].queue == [] && ns[0].executing < o.concurrency
    ensures var last := |ns[1].queue| - 1;
      var a := Send(ns[0], ns[1].queue[last]);
      StealTask(o, ns, 1, 0) == [a.(stolen := a.stolen + 1), ns[1].(queue := ns[1].queue[..last])]
  {
    hide PopTask, Cascaded, WorkConserving;
    PopFromFull(o, ns, 1);
    var last := |ns[1].queue| - 1;
    var popped := ns[1 := ns[1].(queue := ns[1].queue[..last])];
    assert PlaceTask(o, popped, 0, ns[1].queue[last]) == popped[0 := Send(ns[0], ns[1].queue[last])];
  }

  lemma FullSecondWorkerIsRelieved(o: Options, ns: seq<Node>)
    requires |ns| == 2 && o.size > 1 && |ns[1].queue| > 1
    requires ns[0].ready && ns[0].queue == [] && ns[0].executing < o.concurrency
    ensures var last := |ns[1].queue| - 1;
      var a := Send(ns[0], ns[1].queue[last]);
      TasksStealingOnBackPressure(o, ns, 1)
        == [a.(stolen := a.stolen + 1), ns[1].(queue := ns[1].queue[..last])]
  {
    hide StealTask;
    IdentityOrder(ns, 2);
    var order := KeysByQueued(ns, false, 2);
    RelieveSecondWorker(o, ns);
    var r := StealTask(o, ns, 1, 0);
    assert order == [0, 1];
    assert StealFromFull(o, r, 1, order, 2) == r;
    assert StealFromFull(o, r, 1, order, 1) == r;
  }

  /** The task that fills up worker 1 goes to worker 0. */
  lemma EnqueueAndSteal(o: Options, ns: seq<Node>, t: Task)
    requires |ns| == 2 && o.StealsOnBackPressure() && o.size > 1
    requires |ns[1].queue| + 1 == o.size && !ns[1].backPressureStarted
    requires ns[0].ready && ns[0].queue == [] && ns[0].executing < o.concurrency
    ensures var a := Send(ns[0], t);
      EnqueueTask(o, ns, 1, t) == [a.(stolen := a.stolen + 1), ns[1]]
  {
    hide TasksStealingOnBackPressure, Cascaded, WorkConserving;
    var pushed := ns[1 := Queue(ns[1], t)];
    var started := pushed[1 := pushed[1].(backPressureStarted := true)];
    FullSecondWorkerIsRelieved(o, started);
    assert started[1].queue[..|started[1].queue| - 1] == ns[1].queue;
  }

  /** Worker 0 has p tasks executing by its counter, but none in flight; worker 1 is one task short of being full. */
  ghost predicate BackPressureRound(o: Options, s: State, p: nat) {
    && Pair(o, s) && Own(s, 1) && Still(s.nodes[0]) && Still(s.nodes[1]) && p <= o.concurrency
    && s.nodes[0].queue == [] && s.nodes[0].executing == p && s.nodes[0].running == multiset{}
    && |s.nodes[1].queue| + 1 == o.size && s.nodes[1].executing == o.concurrency
    && |s.nodes[1].running| == o.concurrency + p
  }

  lemma FirstBackPressureRound(o: Options) returns (r: State)
    requires o.enableTasksQueue && 0 < o.concurrency && 0 < o.size
    ensures BackPressureRound(o, r, 0)
  {
    hide Own, Reached;
    Start(o);
    var s := Fill(o, Init(2), 1);
    r := FillQueue(o, s, 1, o.size - 1);
  }

  lemma SubmitStolen(o: Options, s: State, p: nat) returns (r: State, t: Task)
    requires o.StealsOnBackPressure() && o.size > 1 && BackPressureRound(o, s, p) && p < o.concurrency
    ensures Pair(o, r) && r.accepted == s.accepted + [Assignment(1, t)]
    ensures var a := Send(s.nodes[0], t);
      r.nodes == [a.(stolen := a.stolen + 1), s.nodes[1]]
  {
    hide Reached, Own, EnqueueTask, Cascaded, WorkConserving;
    t := NewTask(s);
    r := Submit(o, s, 1);
    EnqueueAndSteal(o, s.nodes, t);
  }

  lemma NextBackPressureRound(o: Options, s: State, p: nat) returns (r: State)
    requires o.StealsOnBackPressure() && !o.StealsOnEmptyQueue() && o.size > 1
    requires BackPressureRound(o, s, p) && p < o.concurrency
    ensures BackPressureRound(o, r, p + 1)
  {
    hide Reached, Own, AfterResponse, DequeueAndExecute;
    var s1, t := SubmitStolen(o, s, p);
    var s2 := Answer(o, s1, 0, t, 1);
    var answered := s1.nodes[0 := Answered(s1.nodes[0], t)];
    var counted := answered[1 := CountAnswer(answered[1], false)];
    AfterResponseDequeues(o, answered, 1);
    DequeuePlain(o, counted, 1);
    ShiftedOwn(s, s2, 1);
    r := SubmitPlain(o, s2, 1);
  }

  /** The next task of a node's queue has gone out. */
  lemma ShiftedOwn(s: State, r: State, k: nat)
    requires k < |s.nodes| == |r.nodes| && Own(s, k) && s.accepted <= r.accepted && s.nodes[k].queue != []
    requires r.nodes[k].queue == s.nodes[k].queue[1..]
    requires r.nodes[k].running == s.nodes[k].running + multiset{s.nodes[k].queue[0]}
    ensures Own(r, k)
  {
    forall t | LiveAt(r, t, k) ensures Assignment(k, t) in r.accepted {
      assert LiveAt(s, t, k);
    }
  }

  lemma {:induction false} LastBackPressureRound(o: Options, s: State, p: nat) returns (r: State)
    requires o.StealsOnBackPressure() && !o.StealsOnEmptyQueue() && o.size > 1 && BackPressureRound(o, s, p)
    ensures BackPressureRound(o, r, o.concurrency)
    decreases o.concurrency - p
  {
    if p == o.concurrency {
      r := s;
    } else {
      var next := NextBackPressureRound(o, s, p);
      r := LastBackPressureRound(o, next, p + 1);
    }
  }

  lemma BackPressureStealingStalls(o: Options) returns (r: State)
    requires o.StealsOnBackPressure() && !o.StealsOnEmptyQueue() && o.size > 1 && 0 < o.concurrency
    ensures Reached(o, r) && Stalled(r)
  {
    hide Reached, Own;
    var s0 := FirstBackPressureRound(o);
    var s := LastBackPressureRound(o, s0, 0);
    var full := SubmitPlainBelow(o, s, 0);
    r := Drain(o, full, 1);
    assert r.nodes[0] == full.nodes[0] && r.nodes[0].queue != [];
  }

  // ---- Exactly when pools stall ----

  /** The counter of some node is within the quota although its worker has more tasks in flight. */
  ghost predicate Overfilled(o: Options, s: State) {
    exists k :: 0 <= k < |s.nodes| && s.nodes[k].executing <= o.concurrency < |s.nodes[k].running|
  }

  /**
    Either kind of stealing, at any concurrency and size at which it steals at all, overfills some
    worker of a pool of two, and leaves a task waiting although no response and no timer is to come.
    No task fails and none is redistributed or flushed. The default options (a concurrency of one,
    a size of four for two workers, both kinds of stealing) are among them.
   */
  lemma StealingStalls(o: Options)
    requires o.enableTasksQueue && 0 < o.concurrency && !o.NoStealing()
    ensures exists events, r :: Calm(events) && Run(o, Init(2), events, r) && Overfilled(o, r)
    ensures exists events, r :: Calm(events) && Run(o, Init(2), events, r) && Stalled(r)
  {
    hide Run, Stalled;
    if o.taskStealing {
      var s := FirstEmptyQueueRound(o);
      var overfilled := NextEmptyQueueRound(o, s, 0);
      assert overfilled.nodes[0].executing <= o.concurrency < |overfilled.nodes[0].running|;
      assert Reached(o, overfilled);
      var r := EmptyQueueStealingStalls(o);
    } else {
      var s := FirstBackPressureRound(o);
      var overfilled := NextBackPressureRound(o, s, 0);
      assert overfilled.nodes[1].executing <= o.concurrency < |overfilled.nodes[1].running|;
      assert Reached(o, overfilled);
      var r := BackPressureStealingStalls(o);
    }
  }

  /**
    For every concurrency and size: some run reaches a state in which a task waits, nothing is in
    flight and no timer is set, without failures, redistribution or flushing, if and only if the
    options let tasks be stolen at all; and the same holds of overfilled workers.
   */
  lemma StallsExactly(o: Options)
    requires o.enableTasksQueue && 0 < o.concurrency
    ensures (exists n, events, r :: Calm(events) && Run(o, Init(n), events, r) && Stalled(r))
      <==> o.taskStealing || (o.tasksStealingOnBackPressure && o.size > 1)
    ensures (exists n, events, r :: Calm(events) && Run(o, Init(n), events, r) && Overfilled(o, r))
      <==> o.taskStealing || (o.tasksStealingOnBackPressure && o.size > 1)
  {
    hide Run;
    if o.NoStealing() {
      forall n: nat, events, r | Calm(events) && Run(o, Init(n), events, r) ensures !Stalled(r) && !Overfilled(o, r) {
        NoStall(o, n, events, r);
      }
    } else {
      StealingStalls(o);
    }
  }

  /** A worker with waiting tasks has its quota of tasks in flight in every run if and only if the options forbid all stealing. */
  lemma NoStallExactly(o: Options)
    requires o.enableTasksQueue && 0 < o.concurrency
    ensures (forall n, events, r :: StaysPut(events) && Run(o, Init(n), events, r) ==>
              forall k :: 0 <= k < |r.nodes| && r.nodes[k].queue != [] ==> o.concurrency <= |r.nodes[k].running|)
      <==> !o.taskStealing && (!o.tasksStealingOnBackPressure || o.size <= 1)
  {
    hide Run;
    if o.NoStealing() {
      forall n: nat, events, r | StaysPut(events) && Run(o, Init(n), events, r)
        ensures forall k :: 0 <= k < |r.nodes| && r.nodes[k].queue != [] ==> o.concurrency <= |r.nodes[k].running|
      {
        NoStall(o, n, events, r);
      }
    } else {
      StealingStalls(o);
      var events, r :| Calm(events) && Run(o, Init(2), events, r) && Stalled(r);
      var k: nat :| k < |r.nodes| && r.nodes[k].queue != [];
      assert StaysPut(events) && |r.nodes[k].running| == 0;
    }
  }
}
