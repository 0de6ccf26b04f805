/**
  The state a pool keeps for each worker, as a value.

  A node is the abstract value of a WorkerNode object (src/pools/worker-node.ts): its tasks queue,
  its usage counters and its two re-entrancy guards, together with what the outside world holds for
  it: the continuations of startOnEmptyQueue asleep in a timer, everything ever sent to the worker
  and what the worker has not answered yet.
 */
module WorkerNodes {

  datatype Task = Task(taskId: nat, name: string)

  datatype Options = Options(
    enableTasksQueue: bool,
    concurrency: nat,
    size: nat,
    taskStealing: bool,
    tasksStealingOnBackPressure: bool)
  {
    /** Whether onEmptyQueue is set on the worker nodes. */
    predicate StealsOnEmptyQueue() {
      enableTasksQueue && taskStealing
    }

    /** Whether onBackPressure is set on the worker nodes. */
    predicate StealsOnBackPressure() {
      enableTasksQueue && tasksStealingOnBackPressure
    }

    /** No task is ever stolen: with a size of one or less, onBackPressure returns at once. */
    predicate NoStealing() {
      !StealsOnEmptyQueue() && (!StealsOnBackPressure() || size <= 1)
    }
  }

  datatype Node = Node(
    queue: seq<Task>,
    executing: nat,
    executed: nat,
    failed: nat,
    stolen: nat,
    ready: bool,
    backPressureStarted: bool,
    emptyQueueCount: nat,
    asleep: nat,
    sent: seq<Task>,
    running: multiset<Task>)

  function NewNode(ready: bool): Node {
    Node([], 0, 0, 0, 0, ready, false, 0, 0, [], multiset{})
  }

  // ---- Sums over the nodes of a pool ----

  function Sum(nodes: seq<Node>, f: Node -> multiset<Task>): multiset<Task> {
    if nodes == [] then multiset{} else Sum(nodes[..|nodes| - 1], f) + f(nodes[|nodes| - 1])
  }

  function Total(nodes: seq<Node>, f: Node -> nat): nat {
    if nodes == [] then 0 else Total(nodes[..|nodes| - 1], f) + f(nodes[|nodes| - 1])
  }

  /** The tasks a node is responsible for: waiting in its queue or in flight at its worker. */
  function Live(n: Node): multiset<Task> {
    multiset(n.queue) + n.running
  }

  function Sent(n: Node): multiset<Task> {
    multiset(n.sent)
  }

  function Running(n: Node): multiset<Task> {
    n.running
  }

  function Queued(n: Node): nat {
    |n.queue|
  }

  function Executing(n: Node): nat {
    n.executing
  }

  lemma {:induction false} SumUpdate(nodes: seq<Node>, k: nat, n: Node, f: Node -> multiset<Task>)
    requires k < |nodes|
    ensures Sum(nodes[k := n], f) + f(nodes[k]) == Sum(nodes, f) + f(n)
  {
    var last := |nodes| - 1;
    var front := nodes[..last];
    if k == last {
      assert nodes[k := n][..last] == front;
    } else {
      SumUpdate(front, k, n, f);
      assert nodes[k := n][..last] == front[k := n];
      var before, after, other := Sum(front, f), Sum(front[k := n], f), f(nodes[last]);
      assert Sum(nodes[k := n], f) == after + other && Sum(nodes, f) == before + other;
      assert (after + other) + f(nodes[k]) == (after + f(nodes[k])) + other;
      assert (before + other) + f(n) == (before + f(n)) + other;
    }
  }

  lemma Cancel(a: multiset<Task>, b: multiset<Task>, c: multiset<Task>)
    requires a + c == b + c
    ensures a == b
  {
    forall t ensures a[t] == b[t] {
      assert (a + c)[t] == (b + c)[t];
    }
  }

  lemma SumUnchanged(nodes: seq<Node>, k: nat, n: Node, f: Node -> multiset<Task>)
    requires k < |nodes| && f(n) == f(nodes[k])
    ensures Sum(nodes[k := n], f) == Sum(nodes, f)
  {
    SumUpdate(nodes, k, n, f);
    Cancel(Sum(nodes[k := n], f), Sum(nodes, f), f(n));
  }

  lemma {:induction false} TotalUpdate(nodes: seq<Node>, k: nat, n: Node, f: Node -> nat)
    requires k < |nodes|
    ensures Total(nodes[k := n], f) + f(nodes[k]) == Total(nodes, f) + f(n)
  {
    var last := |nodes| - 1;
    if k == last {
      assert nodes[k := n][..last] == nodes[..last];
    } else {
      TotalUpdate(nodes[..last], k, n, f);
      assert nodes[k := n][..last] == nodes[..last][k := n];
    }
  }

  lemma {:induction false} InSum(nodes: seq<Node>, k: nat, f: Node -> multiset<Task>)
    requires k < |nodes|
    ensures f(nodes[k]) <= Sum(nodes, f)
  {
    var last := |nodes| - 1;
    if k < last {
      InSum(nodes[..last], k, f);
    }
  }

  // ---- The fuel of the stealing cascade ----

  function NodeFuel(n: Node): nat {
    (if n.backPressureStarted then 0 else 1) + (if n.emptyQueueCount == 0 then 1 else 0)
  }

  /** The number of guards, over all nodes, that can still let a stealing callback start. */
  function Fuel(nodes: seq<Node>): nat {
    Total(nodes, NodeFuel)
  }

  // ---- What a stealing cascade may do to one node ----

  function StealLoop(n: Node): nat {
    if n.emptyQueueCount > 0 then 1 else 0
  }

  /**
    Node b is what a cascade may turn node a into, whatever it moves in and out of its queue: both
    guards are as before, except that a steal loop may have started; dispatches are only appended,
    each counted in executing and each made below the quota; a continuation falls asleep for each
    steal loop that starts.
   */
  ghost predicate Grew(quota: nat, a: Node, b: Node) {
    && b.ready == a.ready
    && b.executed == a.executed
    && b.failed == a.failed
    && a.stolen <= b.stolen
    && b.backPressureStarted == a.backPressureStarted
    && (if a.emptyQueueCount == 0 then b.emptyQueueCount <= 1 else b.emptyQueueCount == a.emptyQueueCount)
    && b.asleep == a.asleep + StealLoop(b) - StealLoop(a)
    && a.sent <= b.sent
    && b.executing == a.executing + |b.sent| - |a.sent|
    && b.running == a.running + multiset(b.sent[|a.sent|..])
    && (b.executing == a.executing || b.executing <= quota)
  }

  ghost predicate AllGrew(quota: nat, ns: seq<Node>, r: seq<Node>) {
    && |r| == |ns|
    && forall k {:trigger Grew(quota, ns[k], r[k])} :: 0 <= k < |ns| ==> Grew(quota, ns[k], r[k])
  }

  lemma GrewTransitive(quota: nat, a: Node, b: Node, c: Node)
    requires Grew(quota, a, b) && Grew(quota, b, c)
    ensures Grew(quota, a, c)
  {
    assert c.sent[|a.sent|..] == b.sent[|a.sent|..] + c.sent[|b.sent|..];
  }

  lemma AllGrewTransitive(quota: nat, a: seq<Node>, b: seq<Node>, c: seq<Node>)
    requires AllGrew(quota, a, b) && AllGrew(quota, b, c)
    ensures AllGrew(quota, a, c)
  {
    forall k | 0 <= k < |a| ensures Grew(quota, a[k], c[k]) {
      assert Grew(quota, a[k], b[k]) && Grew(quota, b[k], c[k]);
      GrewTransitive(quota, a[k], b[k], c[k]);
    }
  }

  lemma {:induction false} GrewFuel(quota: nat, ns: seq<Node>, r: seq<Node>)
    requires AllGrew(quota, ns, r)
    ensures Fuel(r) <= Fuel(ns)
  {
    if ns != [] {
      var last := |ns| - 1;
      GrewFuel(quota, ns[..last], r[..last]);
      assert Grew(quota, ns[last], r[last]);
    }
  }
}
