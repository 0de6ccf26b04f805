/**
  Load balance over whole runs, for the strategies that look at how much each worker was given
  (src/pools/selection-strategies/least-used-worker-choice-strategy.ts) or at nothing at all
  (src/pools/selection-strategies/round-robin-worker-choice-strategy.ts).
 */
module Balance {
  import opened WorkerNodes
  import opened PoolMachine
  import Rotation
  import opened Accounting

  /** What LEAST_USED compares: failed tasks are not part of it. */
  function Load(n: Node): nat {
    n.executed + n.executing + |n.queue|
  }

  /** The reduce of leastUsedNextWorkerNodeKey, over the first n nodes. */
  function LeastUsedKey(ns: seq<Node>, n: nat): (r: nat)
    requires 0 < |ns| && n <= |ns|
    ensures r < |ns|
  {
    if n == 0 then 0
    else
      var best := LeastUsedKey(ns, n - 1);
      if Load(ns[n - 1]) < Load(ns[best]) then n - 1 else best
  }

  /** The chosen node is the first of those with the smallest load. */
  lemma {:induction false} LeastUsedIsFirstMinimum(ns: seq<Node>, n: nat)
    requires 0 < n <= |ns|
    ensures var r := LeastUsedKey(ns, n);
      && r < n
      && (forall j :: 0 <= j < n ==> Load(ns[r]) <= Load(ns[j]))
      && (forall j :: 0 <= j < r ==> Load(ns[r]) < Load(ns[j]))
  {
    if n > 1 {
      LeastUsedIsFirstMinimum(ns, n - 1);
    }
  }

  datatype Strategy = LeastUsed | RoundRobin

  /** Runs of a pool with a fixed set of workers, in which every task succeeds and stays where it was assigned. */
  predicate Plain(e: Event) {
    && !e.Redistribute?
    && !e.AddNode?
    && (e.Response? ==> !e.failed)
  }

  /** r is reached under a strategy that starts at worker 0, and `cursor` is its nextWorkerNodeKey by then. */
  ghost predicate GuidedRun(o: Options, strategy: Strategy, n: nat, events: seq<Event>, r: State, cursor: nat)
    requires 0 < n
    decreases |events|
  {
    if events == [] then r == Init(n) && cursor == 0
    else
      var last := |events| - 1;
      exists m, before: nat :: GuidedRun(o, strategy, n, events[..last], m, before)
        && GuidedStep(o, strategy, m, before, events[last], r, cursor)
  }

  ghost predicate GuidedStep(o: Options, strategy: Strategy, s: State, before: nat, e: Event, r: State, after: nat) {
    && Enabled(s, e)
    && Plain(e)
    && r == Step(o, s, e)
    && if e.Execute? then Chooses(strategy, s, before, e.key, after) else after == before
  }

  /** LEAST_USED chooses what its reduce yields; ROUND_ROBIN chooses the cursor and moves it on. */
  predicate Chooses(strategy: Strategy, s: State, before: nat, key: nat, after: nat) {
    match strategy
    case LeastUsed => 0 < |s.nodes| && key == after == LeastUsedKey(s.nodes, |s.nodes|)
    case RoundRobin => before < |s.nodes| && key == before && after == Rotation.Next(before, |s.nodes|)
  }

  lemma {:induction false} GuidedIsRun(o: Options, strategy: Strategy, n: nat, events: seq<Event>, r: State, cursor: nat)
    requires 0 < n && GuidedRun(o, strategy, n, events, r, cursor)
    ensures Run(o, Init(n), events, r) && StaysPut(events)
    decreases |events|
  {
    hide Step, Enabled;
    if events != [] {
      var last := |events| - 1;
      var m, before: nat :| GuidedRun(o, strategy, n, events[..last], m, before)
        && GuidedStep(o, strategy, m, before, events[last], r, cursor);
      GuidedIsRun(o, strategy, n, events[..last], m, before);
    }
  }

  // ---- Assignments stay balanced ----

  ghost predicate EvenlyAssigned(accepted: seq<Assignment>, n: nat) {
    forall i, j :: 0 <= i < n && 0 <= j < n ==> |AssignedTo(accepted, i)| <= |AssignedTo(accepted, j)| + 1
  }

  lemma EvenAppend(accepted: seq<Assignment>, a: Assignment, n: nat)
    requires EvenlyAssigned(accepted, n) && a.key < n
    requires forall j :: 0 <= j < n ==> |AssignedTo(accepted, a.key)| <= |AssignedTo(accepted, j)|
    ensures EvenlyAssigned(accepted + [a], n)
  {
    forall i, j | 0 <= i < n && 0 <= j < n
      ensures |AssignedTo(accepted + [a], i)| <= |AssignedTo(accepted + [a], j)| + 1
    {
      AssignedAppend(accepted, a, i);
      AssignedAppend(accepted, a, j);
    }
  }

  /** In order of submission, the i-th task was assigned to worker i mod n. */
  predicate Cyclic(accepted: seq<Assignment>, n: nat)
    requires 0 < n
  {
    forall i :: 0 <= i < |accepted| ==> accepted[i].key == i % n
  }

  lemma {:induction false} CyclicCounts(accepted: seq<Assignment>, n: nat, k: nat)
    requires 0 < n && Cyclic(accepted, n) && k < n
    ensures |AssignedTo(accepted, k)| == |accepted| / n + if k < |accepted| % n then 1 else 0
  {
    if accepted != [] {
      var last := |accepted| - 1;
      CyclicCounts(accepted[..last], n, k);
      DivStep(last, n);
    } else {
      DivStep(0, n);
    }
  }

  lemma DivStep(m: nat, n: nat)
    requires 0 < n
    ensures if m % n == n - 1 then (m + 1) / n == m / n + 1 && (m + 1) % n == 0
      else (m + 1) / n == m / n && (m + 1) % n == m % n + 1
    ensures 0 / n == 0 && 0 % n == 0
  {
    var q, r := m / n, m % n;
    assert m == q * n + r;
    if r == n - 1 {
      assert m + 1 == (q + 1) * n;
      DivUnique(m + 1, n, q + 1, 0);
    } else {
      DivUnique(m + 1, n, q, r + 1);
    }
    DivUnique(0, n, 0, 0);
  }

  lemma DivUnique(m: int, n: int, q: int, r: int)
    requires 0 <= r < n && m == q * n + r
    ensures m / n == q && m % n == r
  {
    var d := m / n - q;
    assert d * n + m % n == r by {
      assert m == (m / n) * n + m % n;
      assert (m / n) * n - q * n == d * n;
    }
    assert d >= 1 ==> d * n >= n;
    assert d <= -1 ==> d * n <= -n;
  }

  // ---- Whole runs ----

  ghost predicate Balanced(strategy: Strategy, s: State, n: nat, cursor: nat)
    requires 0 < n
  {
    && |s.nodes| == n
    && (forall k :: 0 <= k < n ==> s.nodes[k].failed == 0)
    && if strategy.LeastUsed? then EvenlyAssigned(s.accepted, n)
       else Cyclic(s.accepted, n) && cursor == |s.accepted| % n
  }

  /** Without failures, the load of a node is the number of tasks assigned to it. */
  lemma LoadIsAssigned(o: Options, s: State, k: nat)
    requires AllInPlace(o, s) && k < |s.nodes| && s.nodes[k].failed == 0
    ensures Load(s.nodes[k]) == |AssignedTo(s.accepted, k)|
  {
    assert InPlace(o, s, k);
    assert |s.nodes[k].sent + s.nodes[k].queue| == |AssignedTo(s.accepted, k)|;
  }

  /** Only a failed response counts a failure. */
  lemma NoFailure(o: Options, s: State, e: Event, k: nat)
    requires o.NoStealing() && AllInPlace(o, s) && Enabled(s, e) && Plain(e) && k < |s.nodes|
    ensures |Step(o, s, e).nodes| == |s.nodes| && Step(o, s, e).nodes[k].failed == s.nodes[k].failed
  {
    match e
    case Execute(j, t) =>
      assert InPlace(o, s, j);
      PlacePlain(o, s.nodes, j, t);
    case Response(j, t, failed) =>
      AnswerNoFailure(o, s.nodes[j := Answered(s.nodes[j], t)], s.pending, t, k);
    case Flush(j) =>
      DequeuePlain(o, s.nodes, j);
    case _ =>
  }

  lemma AnswerNoFailure(o: Options, ns: seq<Node>, pending: map<nat, nat>, t: Task, k: nat)
    requires o.NoStealing() && k < |ns|
    ensures t.taskId in pending && pending[t.taskId] < |ns| ==>
      AfterResponse(o, ns, pending[t.taskId], false)[k].failed == ns[k].failed
  {
    if t.taskId in pending && pending[t.taskId] < |ns| {
      var key := pending[t.taskId];
      var counted := ns[key := CountAnswer(ns[key], false)];
      if o.enableTasksQueue && counted[key].queue != [] && counted[key].executing < o.concurrency {
        DequeuePlain(o, counted, key);
      }
    }
  }

  lemma ChoiceKeepsBalance(o: Options, strategy: Strategy, s: State, n: nat, before: nat, key: nat, t: Task, after: nat)
    requires 0 < n && AllInPlace(o, s) && Balanced(strategy, s, n, before) && Chooses(strategy, s, before, key, after)
    ensures var accepted := s.accepted + [Assignment(key, t)];
      if strategy.LeastUsed? then EvenlyAssigned(accepted, n) else Cyclic(accepted, n) && after == |accepted| % n
  {
    if strategy.LeastUsed? {
      LeastUsedIsFirstMinimum(s.nodes, n);
      LoadIsAssigned(o, s, key);
      forall j | 0 <= j < n ensures |AssignedTo(s.accepted, key)| <= |AssignedTo(s.accepted, j)| {
        LoadIsAssigned(o, s, j);
      }
      EvenAppend(s.accepted, Assignment(key, t), n);
    } else {
      DivStep(|s.accepted|, n);
    }
  }

  lemma {:induction false} RunBalanced(o: Options, strategy: Strategy, n: nat, events: seq<Event>, r: State, cursor: nat)
    requires 0 < n && o.NoStealing() && GuidedRun(o, strategy, n, events, r, cursor)
    ensures Balanced(strategy, r, n, cursor)
    decreases |events|
  {
    if events == [] {
      DivStep(0, n);
    } else {
      var last := |events| - 1;
      var e := events[last];
      var m, before: nat :| GuidedRun(o, strategy, n, events[..last], m, before)
        && GuidedStep(o, strategy, m, before, e, r, cursor);
      RunBalanced(o, strategy, n, events[..last], m, before);
      GuidedIsRun(o, strategy, n, events[..last], m, before);
      RunInPlace(o, n, events[..last], m);
      StepBalanced(o, strategy, m, before, e, r, cursor, n);
    }
  }

  lemma StepBalanced(o: Options, strategy: Strategy, s: State, before: nat, e: Event, r: State, after: nat, n: nat)
    requires 0 < n && o.NoStealing() && AllInPlace(o, s) && Balanced(strategy, s, n, before)
    requires GuidedStep(o, strategy, s, before, e, r, after)
    ensures Balanced(strategy, r, n, after)
  {
    hide Step, AllInPlace;
    NoFailure(o, s, e, 0);
    forall k | 0 <= k < n ensures r.nodes[k].failed == 0 {
      NoFailure(o, s, e, k);
    }
    StepAccepts(o, s, e);
    if e.Execute? {
      ChoiceKeepsBalance(o, strategy, s, n, before, e.key, e.task, after);
    } else {
      assert s.accepted + [] == s.accepted;
    }
  }

  lemma StepAccepts(o: Options, s: State, e: Event)
    requires Enabled(s, e)
    ensures Step(o, s, e).accepted == s.accepted + if e.Execute? then [Assignment(e.key, e.task)] else []
  {
    hide SubmitTask, AfterResponse, StartOnEmptyQueue, RedistributeOne, DequeueAndExecute;
  }

  /**
    At every moment of such a run the loads of any two workers differ by at most one, through
    submissions, dispatches and completions in any order; and ROUND_ROBIN has assigned the i-th
    task to worker i mod n.
   */
  lemma LoadsStayBalanced(o: Options, strategy: Strategy, n: nat, events: seq<Event>, r: State, cursor: nat,
                          i: nat, j: nat)
    requires 0 < n && o.NoStealing() && GuidedRun(o, strategy, n, events, r, cursor)
    requires i < |r.nodes| && j < |r.nodes|
    ensures Load(r.nodes[i]) <= Load(r.nodes[j]) + 1
    ensures strategy.RoundRobin? ==>
      cursor == |r.accepted| % n && forall a :: 0 <= a < |r.accepted| ==> r.accepted[a].key == a % n
  {
    hide GuidedRun;
    RunBalanced(o, strategy, n, events, r, cursor);
    GuidedIsRun(o, strategy, n, events, r, cursor);
    RunInPlace(o, n, events, r);
    LoadIsAssigned(o, r, i);
    LoadIsAssigned(o, r, j);
    if strategy.RoundRobin? {
      CyclicCounts(r.accepted, n, i);
      CyclicCounts(r.accepted, n, j);
    }
  }
}
