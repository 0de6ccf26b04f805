/**
  Which node a stealing callback takes from and which one receives: sorting by queue length, and
  the consequences of using a position in the sorted copy as a worker node key.
 */
module StealingOrder {
  import opened Wrappers
  import opened WorkerNodes
  import opened Cascade

  /** The order of a stable sort by queue length: by length, and by key among equals. */
  predicate Precedes(ns: seq<Node>, descending: bool, a: nat, b: nat)
    requires a < |ns| && b < |ns|
  {
    Before(ns, descending, a, b) || (|ns[a].queue| == |ns[b].queue| && a < b)
  }

  ghost predicate Sorted(ns: seq<Node>, descending: bool, order: seq<nat>) {
    && (forall i :: 0 <= i < |order| ==> order[i] < |ns|)
    && forall i, j :: 0 <= i < j < |order| ==> Precedes(ns, descending, order[i], order[j])
  }

  lemma {:induction false} InsertMember(ns: seq<Node>, descending: bool, order: seq<nat>, key: nat, j: nat)
    requires key < |ns| && forall i :: 0 <= i < |order| ==> order[i] < |ns|
    ensures j in Insert(ns, descending, order, key) <==> j in order || j == key
  {
    var last := |order| - 1;
    if order != [] && Before(ns, descending, key, order[last]) {
      InsertMember(ns, descending, order[..last], key, j);
      assert order == order[..last] + [order[last]];
    }
  }

  lemma {:induction false} InsertSorted(ns: seq<Node>, descending: bool, order: seq<nat>, key: nat)
    requires Sorted(ns, descending, order) && key < |ns|
    requires forall i :: 0 <= i < |order| ==> order[i] < key
    ensures Sorted(ns, descending, Insert(ns, descending, order, key))
  {
    var last := |order| - 1;
    if order != [] && Before(ns, descending, key, order[last]) {
      InsertSorted(ns, descending, order[..last], key);
      var rest := Insert(ns, descending, order[..last], key);
      forall i | 0 <= i < |rest| ensures Precedes(ns, descending, rest[i], order[last]) {
        assert rest[i] in rest;
        InsertMember(ns, descending, order[..last], key, rest[i]);
      }
    }
  }

  lemma {:induction false} KeysMember(ns: seq<Node>, descending: bool, n: nat, k: nat)
    requires n <= |ns|
    ensures k in KeysByQueued(ns, descending, n) <==> k < n
  {
    if n > 0 {
      KeysMember(ns, descending, n - 1, k);
      InsertMember(ns, descending, KeysByQueued(ns, descending, n - 1), n - 1, k);
    }
  }

  /** Where an insertion ends up: behind every node that it does not go before. */
  lemma {:induction false} InsertedAt(ns: seq<Node>, descending: bool, order: seq<nat>, key: nat, i: nat)
    requires key < |ns| && i <= |order| && forall j :: 0 <= j < |order| ==> order[j] < |ns|
    requires forall j :: i <= j < |order| ==> Before(ns, descending, key, order[j])
    requires i > 0 ==> !Before(ns, descending, key, order[i - 1])
    ensures Insert(ns, descending, order, key) == order[..i] + [key] + order[i..]
  {
    var last := |order| - 1;
    if i < |order| {
      InsertedAt(ns, descending, order[..last], key, i);
      assert order[..last][..i] == order[..i] && order[..last][i..] + [order[last]] == order[i..];
    } else {
      assert order[..i] + [key] + order[i..] == order + [key];
    }
  }

  lemma EmptySorted(ns: seq<Node>, descending: bool)
    ensures Sorted(ns, descending, [])
  {
  }

  /** The sorted copy holds every node once, by queue length and, among equals, by key. */
  lemma {:induction false} KeysSorted(ns: seq<Node>, descending: bool, n: nat)
    requires n <= |ns|
    ensures Sorted(ns, descending, KeysByQueued(ns, descending, n))
    ensures forall k: nat :: k < n ==> k in KeysByQueued(ns, descending, n)
  {
    hide Insert, Sorted;
    if n == 0 {
      EmptySorted(ns, descending);
    } else {
      var order := KeysByQueued(ns, descending, n - 1);
      KeysSorted(ns, descending, n - 1);
      forall i | 0 <= i < |order| ensures order[i] < n - 1 {
        assert order[i] in order;
        KeysMember(ns, descending, n - 1, order[i]);
      }
      InsertSorted(ns, descending, order, n - 1);
    }
    forall k: nat | k < n ensures k in KeysByQueued(ns, descending, n) {
      KeysMember(ns, descending, n, k);
    }
  }

  lemma {:induction false} FindSourceFirst(ns: seq<Node>, thief: nat, order: seq<nat>)
    requires forall i :: 0 <= i < |order| ==> order[i] < |ns|
    ensures FindSource(ns, thief, order) == None ==>
      forall i :: 0 <= i < |order| ==> !CanStealFrom(ns, thief, order[i])
    ensures FindSource(ns, thief, order).Some? ==>
      exists i :: 0 <= i < |order| && order[i] == FindSource(ns, thief, order).value
        && CanStealFrom(ns, thief, order[i]) && forall j :: 0 <= j < i ==> !CanStealFrom(ns, thief, order[j])
  {
    if order != [] && !CanStealFrom(ns, thief, order[0]) {
      FindSourceFirst(ns, thief, order[1..]);
      var r := FindSource(ns, thief, order[1..]);
      if r == None {
        forall i | 0 <= i < |order| ensures !CanStealFrom(ns, thief, order[i]) {
          assert i > 0 ==> order[i] == order[1..][i - 1];
        }
      } else {
        var i :| 0 <= i < |order[1..]| && order[1..][i] == r.value
          && CanStealFrom(ns, thief, order[1..][i]) && forall j :: 0 <= j < i ==> !CanStealFrom(ns, thief, order[1..][j]);
        assert order[i + 1] == r.value;
        forall j | 0 <= j < i + 1 ensures !CanStealFrom(ns, thief, order[j]) {
          assert j > 0 ==> order[j] == order[1..][j - 1];
        }
      }
    }
  }

  /** A worker with an empty queue steals from a fullest ready node other than itself, if any holds tasks. */
  lemma StealsFromFullest(ns: seq<Node>, thief: nat)
    ensures var r := FindSource(ns, thief, KeysByQueued(ns, true, |ns|));
      && (r == None ==> forall k: nat :: k < |ns| ==> !CanStealFrom(ns, thief, k))
      && (r.Some? ==> forall k: nat :: k < |ns| && CanStealFrom(ns, thief, k) ==>
            r.value == k || Precedes(ns, true, r.value, k))
  {
    var order := KeysByQueued(ns, true, |ns|);
    KeysSorted(ns, true, |ns|);
    FindSourceFirst(ns, thief, order);
    var r := FindSource(ns, thief, order);
    forall k: nat | k < |ns| && CanStealFrom(ns, thief, k)
      ensures r.Some? && (r.value == k || Precedes(ns, true, r.value, k))
    {
      assert k in order;
      var j :| 0 <= j < |order| && order[j] == k;
      if r.Some? {
        var i :| 0 <= i < |order| && order[i] == r.value
          && CanStealFrom(ns, thief, order[i]) && forall m :: 0 <= m < i ==> !CanStealFrom(ns, thief, order[m]);
      }
    }
  }

  /** Node s comes first, in descending order, of all that the thief can steal from. */
  ghost predicate Fullest(ns: seq<Node>, thief: nat, s: nat) {
    && s < |ns| && CanStealFrom(ns, thief, s)
    && forall j: nat :: j < |ns| && j != s && CanStealFrom(ns, thief, j) ==> Precedes(ns, true, s, j)
  }

  /** Stealing for an emptied queue is one steal, from the fullest node that can be stolen from. */
  lemma EmptiedStealsFromFullest(o: Options, ns: seq<Node>, k: nat, s: nat)
    requires k < |ns| && Fullest(ns, k, s)
    ensures TaskStealingOnEmptyQueue(o, ns, k) == StealTask(o, ns, s, k)
  {
    hide StealTask, Cascaded, WorkConserving, FindSource, KeysByQueued;
    StealsFromFullest(ns, k);
    var source := FindSource(ns, k, KeysByQueued(ns, true, |ns|));
    assert source.Some? && CanStealFrom(ns, k, source.value);
  }

  /** If there is none, it does nothing. */
  lemma EmptiedStealsNothing(o: Options, ns: seq<Node>, k: nat)
    requires k < |ns| && forall j: nat :: j < |ns| ==> !CanStealFrom(ns, k, j)
    ensures TaskStealingOnEmptyQueue(o, ns, k) == ns
  {
    hide StealTask, Cascaded, WorkConserving, KeysByQueued;
  }

  /** If there are any, one of them is the fullest. */
  lemma SomeFullest(ns: seq<Node>, k: nat) returns (s: nat)
    requires k < |ns| && exists j: nat :: j < |ns| && CanStealFrom(ns, k, j)
    ensures Fullest(ns, k, s)
  {
    hide FindSource, KeysByQueued;
    StealsFromFullest(ns, k);
    s := FindSource(ns, k, KeysByQueued(ns, true, |ns|)).value;
  }

  // ---- The receiver of a back-pressure steal ----

  /**
    The node that back-pressure stealing tests at position i is order[i]; the key it gives the task
    to is i. The two agree at every position exactly when no queue is shorter than one before it.
   */
  lemma TestedNodeReceives(ns: seq<Node>)
    ensures (forall i :: 0 <= i < |ns| ==> KeysByQueued(ns, false, |ns|)[i] == i)
      <==> (forall a, b :: 0 <= a < b < |ns| ==> |ns[a].queue| <= |ns[b].queue|)
  {
    var order := KeysByQueued(ns, false, |ns|);
    KeysSorted(ns, false, |ns|);
    if forall i :: 0 <= i < |ns| ==> order[i] == i {
      forall a, b | 0 <= a < b < |ns| ensures |ns[a].queue| <= |ns[b].queue| {
        assert Precedes(ns, false, order[a], order[b]);
      }
    }
    if forall a, b :: 0 <= a < b < |ns| ==> |ns[a].queue| <= |ns[b].queue| {
      IdentityOrder(ns, |ns|);
    }
  }

  lemma {:induction false} IdentityOrder(ns: seq<Node>, n: nat)
    requires n <= |ns| && forall a, b :: 0 <= a < b < |ns| ==> |ns[a].queue| <= |ns[b].queue|
    ensures forall i :: 0 <= i < n ==> KeysByQueued(ns, false, n)[i] == i
  {
    if n > 0 {
      IdentityOrder(ns, n - 1);
    }
  }

  /** A node that is full and already under back pressure pops a task and takes it back. */
  lemma PopFromFull(o: Options, ns: seq<Node>, k: nat)
    requires k < |ns| && |ns[k].queue| > 1
    ensures var last := |ns[k].queue| - 1;
      PopTask(o, ns, k) == Taken(Some(ns[k].queue[last]), ns[k := ns[k].(queue := ns[k].queue[..last])])
  {
    var last := |ns[k].queue| - 1;
    var popped := ns[k := ns[k].(queue := ns[k].queue[..last])];
    assert EmptiedQueue(o, popped, k) == popped;
  }

  lemma PutBack(o: Options, ns: seq<Node>, k: nat, t: Task)
    requires k < |ns| && ns[k].queue != [] && ns[k].backPressureStarted
    ensures PlaceTask(o, ns, k, t) == ns[k := ns[k].(queue := ns[k].queue + [t])]
  {
    assert EnqueueTask(o, ns, k, t) == ns[k := ns[k].(queue := ns[k].queue + [t])];
  }

  lemma StealFromItself(o: Options, ns: seq<Node>, k: nat)
    requires k < |ns| && |ns[k].queue| > 1 && ns[k].backPressureStarted
    ensures StealTask(o, ns, k, k) == ns[k := ns[k].(stolen := ns[k].stolen + 1)]
  {
    hide PopTask, PlaceTask, Cascaded, WorkConserving;
    var q := ns[k].queue;
    var popped := ns[k := ns[k].(queue := q[..|q| - 1])];
    PopFromFull(o, ns, k);
    PutBack(o, popped, k, q[|q| - 1]);
    assert q[..|q| - 1] + [q[|q| - 1]] == q;
    assert PlaceTask(o, popped, k, q[|q| - 1]) == popped[k := ns[k]] == ns;
  }

  /** The test that the node at some position has to pass for a task of node k to be stolen. */
  predicate Passes(o: Options, ns: seq<Node>, k: nat, tested: nat)
    requires k < |ns| && tested < |ns|
  {
    ns[k].queue != [] && ns[tested].ready && tested != k && |ns[tested].queue| < o.size - 1
  }

  /** What the loop does at position i. */
  function StealAt(o: Options, ns: seq<Node>, k: nat, order: seq<nat>, i: nat): (r: seq<Node>)
    requires k < |ns| && i < |order| == |ns| && forall j :: 0 <= j < |order| ==> order[j] < |ns|
    ensures Cascaded(o, ns, r, multiset{}, multiset{})
  {
    if Passes(o, ns, k, order[i]) then StealTask(o, ns, k, i)
    else
      NothingMoved(o, ns);
      ns
  }

  lemma NothingMoved(o: Options, ns: seq<Node>)
    ensures Cascaded(o, ns, ns, multiset{}, multiset{})
  {
    forall j | 0 <= j < |ns| ensures Grew(o.concurrency, ns[j], ns[j]) {
      assert ns[j].sent[|ns[j].sent|..] == [];
    }
  }

  /** The nodes when the loop has dealt with the positions below i. */
  function StealBelow(o: Options, ns: seq<Node>, k: nat, order: seq<nat>, i: nat): (r: seq<Node>)
    requires k < |ns| && i <= |order| == |ns| && forall j :: 0 <= j < |order| ==> order[j] < |ns|
    ensures |r| == |ns| && r[k].backPressureStarted == ns[k].backPressureStarted
  {
    if i == 0 then ns
    else
      var before := StealBelow(o, ns, k, order, i - 1);
      var after := StealAt(o, before, k, order, i - 1);
      assert Grew(o.concurrency, before[k], after[k]);
      after
  }

  lemma {:induction false} StealInSteps(o: Options, ns: seq<Node>, k: nat, order: seq<nat>, i: nat)
    requires k < |ns| && i <= |order| == |ns| && forall j :: 0 <= j < |order| ==> order[j] < |ns|
    ensures StealFromFull(o, ns, k, order, 0) == StealFromFull(o, StealBelow(o, ns, k, order, i), k, order, i)
  {
    hide StealTask, Cascaded, WorkConserving;
    if i > 0 {
      StealInSteps(o, ns, k, order, i - 1);
    }
  }

  /**
    For any number of workers: when the loop of a full worker k comes to position k and the node
    tested there passes, worker k takes its own last task back, and only its count of stolen tasks
    goes up; when that node does not pass, nothing happens at that position.
   */
  lemma StealsFromItselfAtOwnPosition(o: Options, ns: seq<Node>, k: nat)
    requires k < |ns| && o.size > 1 && ns[k].backPressureStarted
    requires |StealBelow(o, ns, k, KeysByQueued(ns, false, |ns|), k)[k].queue| > 1
    ensures var order := KeysByQueued(ns, false, |ns|);
      var m := StealBelow(o, ns, k, order, k);
      var counted := m[k := m[k].(stolen := m[k].stolen + 1)];
      && StealAt(o, m, k, order, k) == (if Passes(o, m, k, order[k]) then counted else m)
      && TasksStealingOnBackPressure(o, ns, k) == StealFromFull(o, StealAt(o, m, k, order, k), k, order, k + 1)
  {
    hide StealTask, Cascaded, WorkConserving, KeysByQueued, StealBelow;
    var order := KeysByQueued(ns, false, |ns|);
    var m := StealBelow(o, ns, k, order, k);
    StealInSteps(o, ns, k, order, k);
    StealFromItself(o, m, k);
  }

  /** So a full worker 0 serves itself first, if and only if a shortest of all queues is one of a ready worker with room. */
  lemma FullFirstWorkerServesItself(o: Options, ns: seq<Node>)
    requires 0 < |ns| && 1 < o.size <= |ns[0].queue| && ns[0].backPressureStarted
    ensures var order := KeysByQueued(ns, false, |ns|);
      var counted := ns[0 := ns[0].(stolen := ns[0].stolen + 1)];
      && (forall j :: 0 <= j < |ns| ==> |ns[order[0]].queue| <= |ns[j].queue|)
      && TasksStealingOnBackPressure(o, ns, 0) ==
           StealFromFull(o, if ns[order[0]].ready && |ns[order[0]].queue| < o.size - 1 then counted else ns, 0, order, 1)
  {
    hide StealTask, Cascaded, WorkConserving, KeysByQueued, StealFromFull;
    var order := KeysByQueued(ns, false, |ns|);
    KeysSorted(ns, false, |ns|);
    forall j: nat | j < |ns| ensures |ns[order[0]].queue| <= |ns[j].queue| {
      assert j in order;
      var i :| 0 <= i < |order| && order[i] == j;
      assert i > 0 ==> Precedes(ns, false, order[0], order[i]);
    }
    assert StealBelow(o, ns, 0, order, 0) == ns;
    StealsFromItselfAtOwnPosition(o, ns, 0);
  }

  lemma SecondIsShorter(ns: seq<Node>)
    requires |ns| == 2 && |ns[1].queue| < |ns[0].queue|
    ensures KeysByQueued(ns, false, 2) == [1, 0]
  {
    hide KeysByQueued;
    var order := KeysByQueued(ns, false, 2);
    KeysSorted(ns, false, 2);
    assert 0 in order && 1 in order;
    assert Precedes(ns, false, order[0], order[1]);
    assert order[0] == 1 && order[1] == 0;
  }

  /**
    With two workers, a full worker 0 is never relieved: worker 1 passes the test, and worker 0
    takes its own last task back. Only its count of stolen tasks goes up.
   */
  lemma FullFirstWorkerStealsFromItself(o: Options, ns: seq<Node>)
    requires |ns| == 2 && o.size > 1 && |ns[0].queue| >= o.size && ns[0].backPressureStarted
    requires ns[1].ready && |ns[1].queue| < o.size - 1
    ensures TasksStealingOnBackPressure(o, ns, 0) == ns[0 := ns[0].(stolen := ns[0].stolen + 1)]
  {
    hide StealTask, Cascaded, WorkConserving, KeysByQueued;
    var counted := ns[0 := ns[0].(stolen := ns[0].stolen + 1)];
    var order := KeysByQueued(ns, false, 2);
    SecondIsShorter(ns);
    StealFromItself(o, ns, 0);
    SkipSource(o, counted, order);
  }

  lemma SkipSource(o: Options, ns: seq<Node>, order: seq<nat>)
    requires |ns| == 2 && order == [1, 0]
    ensures StealFromFull(o, ns, 0, order, 1) == ns
  {
    assert StealFromFull(o, ns, 0, order, 2) == ns;
  }

  // ---- Back pressure in a sorted pool ----

  /** Node j gets a task from a full node k. */
  predicate Takes(o: Options, ns: seq<Node>, k: nat, j: nat)
    requires j < |ns|
  {
    j != k && ns[j].ready && |ns[j].queue| < o.size - 1
  }

  /** How many of the nodes below i get one. */
  function TakersBelow(o: Options, ns: seq<Node>, k: nat, i: nat): (r: nat)
    requires i <= |ns|
    ensures r <= i
  {
    if i == 0 then 0 else TakersBelow(o, ns, k, i - 1) + if Takes(o, ns, k, i - 1) then 1 else 0
  }

  /** Node n with a stolen task, which it executes if it is below its quota and has none waiting. */
  function WithStolen(o: Options, n: Node, t: Task): Node {
    (if n.queue == [] && n.executing < o.concurrency then Send(n, t) else n.(queue := n.queue + [t]))
      .(stolen := n.stolen + 1)
  }

  /** Each taker below i has one of the last tasks of node k, in key order from the end of the queue. */
  ghost predicate Relieved(o: Options, ns: seq<Node>, r: seq<Node>, k: nat, i: nat)
    requires k < |ns| && i <= |ns| && TakersBelow(o, ns, k, i) < |ns[k].queue|
  {
    && |r| == |ns|
    && r[k] == ns[k].(queue := ns[k].queue[..|ns[k].queue| - TakersBelow(o, ns, k, i)])
    && forall j: nat :: j < |ns| && j != k ==> RelievedAt(o, ns, r, k, i, j)
  }

  predicate RelievedAt(o: Options, ns: seq<Node>, r: seq<Node>, k: nat, i: nat, j: nat)
    requires k < |ns| == |r| && j < |ns|
  {
    var q, earlier := ns[k].queue, TakersBelow(o, ns, k, j);
    if j < i && Takes(o, ns, k, j) then earlier < |q| && r[j] == WithStolen(o, ns[j], q[|q| - 1 - earlier])
    else r[j] == ns[j]
  }

  lemma StealToTaker(o: Options, ns: seq<Node>, k: nat, j: nat)
    requires k < |ns| && j < |ns| && Takes(o, ns, k, j) && |ns[k].queue| > 1
    ensures var q := ns[k].queue;
      StealTask(o, ns, k, j) ==
        ns[k := ns[k].(queue := q[..|q| - 1])][j := WithStolen(o, ns[j], q[|q| - 1])]
  {
    hide PopTask, EnqueueTask, Cascaded, WorkConserving;
    var q := ns[k].queue;
    var popped := ns[k := ns[k].(queue := q[..|q| - 1])];
    PopFromFull(o, ns, k);
    EnqueuePlain(o, popped, j, q[|q| - 1]);
  }

  lemma StealAtIs(o: Options, ns: seq<Node>, k: nat, order: seq<nat>, i: nat)
    requires k < |ns| && i < |order| == |ns| && (forall j :: 0 <= j < |order| ==> order[j] < |ns|) && order[i] == i
    ensures StealAt(o, ns, k, order, i) ==
      if ns[k].queue != [] && Takes(o, ns, k, i) then StealTask(o, ns, k, i) else ns
  {
    hide StealTask, Cascaded, WorkConserving;
  }

  lemma RelievedThen(o: Options, ns: seq<Node>, before: seq<Node>, k: nat, order: seq<nat>, i: nat)
    requires k < |ns| && i < |ns| == |order| && (forall j :: 0 <= j < |order| ==> order[j] < |ns|) && order[i] == i
    requires TakersBelow(o, ns, k, i + 1) < |ns[k].queue| && Relieved(o, ns, before, k, i)
    ensures Relieved(o, ns, StealAt(o, before, k, order, i), k, i + 1)
  {
    hide StealTask, Cascaded, WorkConserving, WithStolen, StealAt;
    var q, r := ns[k].queue, StealAt(o, before, k, order, i);
    assert i != k ==> RelievedAt(o, ns, before, k, i, i);
    StealAtIs(o, before, k, order, i);
    if Takes(o, ns, k, i) {
      StealToTaker(o, before, k, i);
      var cut := |q| - TakersBelow(o, ns, k, i);
      assert before[k].queue == q[..cut] && q[..cut][..cut - 1] == q[..cut - 1];
      assert r == before[k := before[k].(queue := q[..cut - 1])][i := WithStolen(o, ns[i], q[cut - 1])];
    } else {
      assert r == before;
    }
    var next := i + 1;
    forall j: nat | j < |ns| && j != k ensures RelievedAt(o, ns, r, k, next, j) {
      assert RelievedAt(o, ns, before, k, i, j);
    }
  }

  lemma {:induction false} RelievedBelow(o: Options, ns: seq<Node>, k: nat, order: seq<nat>, i: nat)
    requires k < |ns| && i <= |ns| == |order| && forall j :: 0 <= j < |order| ==> order[j] == j
    requires TakersBelow(o, ns, k, i) < |ns[k].queue|
    ensures Relieved(o, ns, StealBelow(o, ns, k, order, i), k, i)
  {
    hide StealTask, Cascaded, WorkConserving, Relieved;
    if i == 0 {
      NotYetRelieved(o, ns, k);
    } else {
      RelievedBelow(o, ns, k, order, i - 1);
      RelievedThen(o, ns, StealBelow(o, ns, k, order, i - 1), k, order, i - 1);
    }
  }

  lemma NotYetRelieved(o: Options, ns: seq<Node>, k: nat)
    requires k < |ns| && ns[k].queue != []
    ensures Relieved(o, ns, ns, k, 0)
  {
    assert ns[k].queue[..|ns[k].queue|] == ns[k].queue;
  }

  /**
    What back-pressure stealing is for, and what it does where positions are keys: if no queue is
    shorter than one before it, and the full node has a task for each, every other ready node with
    room for more than one task gets exactly one, from the end of the queue of the full node.
   */
  lemma BackPressureRelieves(o: Options, ns: seq<Node>, k: nat)
    requires k < |ns| && 1 < o.size && TakersBelow(o, ns, k, |ns|) < |ns[k].queue|
    requires forall a, b :: 0 <= a < b < |ns| ==> |ns[a].queue| <= |ns[b].queue|
    ensures Relieved(o, ns, TasksStealingOnBackPressure(o, ns, k), k, |ns|)
  {
    hide KeysByQueued, Relieved, StealTask, Cascaded, WorkConserving, StealBelow;
    var order := KeysByQueued(ns, false, |ns|);
    IdentityOrder(ns, |ns|);
    StealInSteps(o, ns, k, order, |ns|);
    RelievedBelow(o, ns, k, order, |ns|);
  }
}
