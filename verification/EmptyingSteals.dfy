/**
  What a node that is down steals when redistribution takes the last task out of its queue. The node
  it steals from may be emptied in turn and steal as well, and so on: a chain, of which only the two
  ends show.
 */
module EmptyingSteals {
  import opened Wrappers
  import opened WorkerNodes
  import opened Cascade
  import opened PoolMachine
  import opened Redistribution
  import opened StealingOrder
  import opened StealLoops

  /** Ready nodes hold at most one waiting task each. */
  predicate AtMostOne(ns: seq<Node>) {
    forall j :: 0 <= j < |ns| && ns[j].ready ==> |ns[j].queue| <= 1
  }

  /** All ready nodes hold at most one task each, and the busy ones execute their quota. */
  ghost predicate Thin(o: Options, ns: seq<Node>) {
    forall j {:trigger ns[j]} :: 0 <= j < |ns| && ns[j].ready ==>
      |ns[j].queue| <= 1 && (ns[j].queue != [] ==> o.concurrency <= ns[j].executing)
  }

  predicate Holds(ns: seq<Node>, j: nat) {
    j < |ns| && ns[j].ready && ns[j].queue != []
  }

  /** Node e is where a chain of steals ends: it is reached, and it does not go on. */
  ghost predicate ChainEnds(ns: seq<Node>, e: nat) {
    && Holds(ns, e)
    && (forall h :: 0 <= h < e && Holds(ns, h) ==> ns[h].emptyQueueCount == 0)
    && (ns[e].emptyQueueCount > 0 || forall h :: e < h < |ns| ==> !Holds(ns, h))
  }

  /** Nothing about node a changes but its steal loop, the number of tasks stolen, and which tasks it holds. */
  predicate SameShape(a: Node, b: Node) {
    && b.ready == a.ready && b.executing == a.executing && b.backPressureStarted == a.backPressureStarted
    && |b.queue| == |a.queue|
  }

  lemma FirstHolder(ns: seq<Node>, k: nat, s: nat)
    requires k < |ns| && ns[k].queue == [] && Holds(ns, s)
    requires forall j :: 0 <= j < |ns| && ns[j].ready ==> |ns[j].queue| <= 1
    requires forall h :: 0 <= h < s ==> !Holds(ns, h)
    ensures FindSource(ns, k, KeysByQueued(ns, true, |ns|)) == Some(s)
  {
    hide FindSource, KeysByQueued;
    StealsFromFullest(ns, k);
    var r := FindSource(ns, k, KeysByQueued(ns, true, |ns|));
    assert CanStealFrom(ns, k, s);
    assert r.Some? && Holds(ns, r.value);
  }

  lemma NoHolder(o: Options, ns: seq<Node>, k: nat)
    requires k < |ns| && forall j :: 0 <= j < |ns| && j != k ==> !Holds(ns, j)
    ensures TaskStealingOnEmptyQueue(o, ns, k) == ns
  {
    hide Cascaded, WorkConserving, StealTask, FindSource, KeysByQueued;
    var r := FindSource(ns, k, KeysByQueued(ns, true, |ns|));
    assert r.Some? ==> Holds(ns, r.value);
  }

  lemma {:induction false} SomeFirst(ns: seq<Node>, n: nat) returns (s: nat)
    requires n <= |ns| && exists h :: 0 <= h < n && Holds(ns, h)
    ensures s < n && Holds(ns, s) && forall h :: 0 <= h < s ==> !Holds(ns, h)
  {
    if h :| 0 <= h < n - 1 && Holds(ns, h) {
      s := SomeFirst(ns, n - 1);
    } else {
      s := n - 1;
    }
  }

  /** What a chain of steals that starts at node k does to the nodes: its end e loses a task, node k gets one. */
  ghost predicate Chained(ns: seq<Node>, r: seq<Node>, k: nat, e: nat) {
    && |r| == |ns| && k < |ns| && e < |ns| && k != e
    && (forall j {:trigger r[j]} :: 0 <= j < |ns| && j != k && j != e ==> SameShape(ns[j], r[j]))
    && r[k].ready == ns[k].ready && r[k].executing == ns[k].executing
    && r[k].backPressureStarted == ns[k].backPressureStarted && |r[k].queue| == |ns[k].queue| + 1
    && r[e].ready == ns[e].ready && r[e].executing == ns[e].executing
    && r[e].backPressureStarted == ns[e].backPressureStarted && |r[e].queue| + 1 == |ns[e].queue|
  }

  /** Node e lost a task, and that is all there is to see. */
  ghost predicate Lost(ns: seq<Node>, r: seq<Node>, e: nat) {
    && |r| == |ns| && e < |ns|
    && (forall j {:trigger r[j]} :: 0 <= j < |ns| && j != e ==> SameShape(ns[j], r[j]))
    && r[e].ready == ns[e].ready && r[e].executing == ns[e].executing
    && r[e].backPressureStarted == ns[e].backPressureStarted && |r[e].queue| + 1 == |ns[e].queue|
  }

  /** The first node that holds a task has it popped: the chain that this starts ends at some node e. */
  lemma {:induction false} PopChains(o: Options, ns: seq<Node>, s: nat) returns (e: nat)
    requires o.StealsOnEmptyQueue() && Thin(o, ns) && Holds(ns, s) && forall h :: 0 <= h < s ==> !Holds(ns, h)
    ensures ChainEnds(ns, e) && PopTask(o, ns, s).task == Some(ns[s].queue[0])
    ensures Lost(ns, PopTask(o, ns, s).nodes, e)
    decreases Fuel(ns), 0
  {
    hide Cascaded, WorkConserving, TaskStealingOnEmptyQueue, Fuel;
    var popped := ns[s := ns[s].(queue := ns[s].queue[..0])];
    if ns[s].emptyQueueCount > 0 {
      e := s;
      assert EmptiedQueue(o, popped, s) == popped;
    } else {
      var started := popped[s := popped[s].(emptyQueueCount := 1)];
      StartingBurns(ns, s, ns[s].queue[..0]);
      if h :| s < h < |ns| && Holds(ns, h) {
        assert Holds(started, h);
        e := ChainSteals(o, started, s);
        ChainGoesOn(ns, started, s, e);
      } else {
        e := s;
        forall j | 0 <= j < |ns| && j != s ensures !Holds(started, j) {
          assert !Holds(ns, j);
        }
        NoHolder(o, started, s);
      }
    }
  }

  lemma ChainGoesOn(ns: seq<Node>, started: seq<Node>, s: nat, e: nat)
    requires Holds(ns, s) && (forall h :: 0 <= h < s ==> !Holds(ns, h)) && ns[s].emptyQueueCount == 0
    requires started == ns[s := ns[s].(queue := [], emptyQueueCount := 1)] && ChainEnds(started, e)
    ensures ChainEnds(ns, e) && e != s
  {
    assert !Holds(started, s);
    forall h | 0 <= h < |ns| && h != s ensures Holds(ns, h) <==> Holds(started, h) {
    }
  }

  lemma {:induction false} ChainSteals(o: Options, ns: seq<Node>, k: nat) returns (e: nat)
    requires o.StealsOnEmptyQueue() && Thin(o, ns) && k < |ns|
    requires ns[k].queue == [] && o.concurrency <= ns[k].executing
    requires exists h :: 0 <= h < |ns| && Holds(ns, h)
    ensures ChainEnds(ns, e) && Chained(ns, TaskStealingOnEmptyQueue(o, ns, k), k, e)
    decreases Fuel(ns), 1
  {
    hide Cascaded, WorkConserving, PopTask, FindSource, KeysByQueued, Fuel, EnqueueTask;
    var s := SomeFirst(ns, |ns|);
    FirstHolder(ns, k, s);
    e := PopChains(o, ns, s);
    var popped := PopTask(o, ns, s);
    var m, t := popped.nodes, popped.task.value;
    assert e != k && SameShape(ns[k], m[k]);
    EnqueuePlain(o, m, k, t);
    var placed := m[k := m[k].(queue := m[k].queue + [t])];
    assert PlaceTask(o, m, k, t) == placed;
    var counted := placed[k := placed[k].(stolen := placed[k].stolen + 1)];
    assert TaskStealingOnEmptyQueue(o, ns, k) == StealTask(o, ns, s, k) == counted;
  }

  // ---- The last task of a failed node k ----

  /** The nodes after the last task of node k was taken out, and all stealing this started. */
  function Emptied(o: Options, ns: seq<Node>, k: nat): (r: seq<Node>)
    requires k < |ns|
    ensures |r| == |ns|
  {
    var stolen := TaskStealingOnEmptyQueue(o, ns[k := ns[k].(queue := [], emptyQueueCount := 1)], k);
    stolen[k := stolen[k].(asleep := stolen[k].asleep + 1)]
  }

  ghost predicate LastOne(o: Options, ns: seq<Node>, k: nat) {
    && k < |ns| && !ns[k].ready && o.StealsOnEmptyQueue() && ns[k].emptyQueueCount == 0
    && |ns[k].queue| == 1 && WorkConserving(o, ns)
  }

  lemma LastIs(o: Options, ns: seq<Node>, k: nat)
    requires LastOne(o, ns, k)
    ensures k < |ns| && |ns[k].queue| == 1 && !ns[k].ready && !Failing(o, ns, k)
  {
  }

  lemma LastUnfolds(o: Options, ns: seq<Node>, k: nat)
    requires LastOne(o, ns, k)
    ensures o.concurrency <= ns[k].executing
    ensures RedistributeOne(o, ns, k) == PlaceTask(o, Emptied(o, ns, k), RedistributionTarget(ns, |ns|), ns[k].queue[0])
  {
    hide Cascaded, TaskStealingOnEmptyQueue, PlaceTask, RedistributionTarget;
    assert Busy(o, ns[k]);
    var shifted := ns[k := ns[k].(queue := ns[k].queue[1..])];
    assert shifted[k := shifted[k].(emptyQueueCount := 1)] == ns[k := ns[k].(queue := [], emptyQueueCount := 1)];
  }

  /** No ready node holds a task: nothing is stolen. */
  lemma EmptiedAlone(o: Options, ns: seq<Node>, k: nat)
    requires LastOne(o, ns, k) && forall j :: 0 <= j < |ns| ==> !Holds(ns, j)
    ensures Emptied(o, ns, k) == ns[k := ns[k].(queue := [], emptyQueueCount := 1, asleep := ns[k].asleep + 1)]
  {
    hide TaskStealingOnEmptyQueue;
    var started := ns[k := ns[k].(queue := [], emptyQueueCount := 1)];
    forall j | 0 <= j < |ns| && j != k ensures !Holds(started, j) {
      assert !Holds(ns, j);
    }
    NoHolder(o, started, k);
  }

  /** A steal from a node that keeps tasks, into one that has none waiting and its quota executing. */
  lemma StealFromLong(o: Options, ns: seq<Node>, s: nat, k: nat)
    requires s < |ns| && k < |ns| && s != k && |ns[s].queue| > 1
    requires ns[k].queue == [] && o.concurrency <= ns[k].executing
    ensures var last := |ns[s].queue| - 1;
      StealTask(o, ns, s, k) ==
        ns[s := ns[s].(queue := ns[s].queue[..last])]
          [k := ns[k].(queue := [ns[s].queue[last]], stolen := ns[k].stolen + 1)]
  {
    hide Cascaded, WorkConserving, PopTask, EnqueueTask;
    var t := ns[s].queue[|ns[s].queue| - 1];
    var popped := ns[s := ns[s].(queue := ns[s].queue[..|ns[s].queue| - 1])];
    PopFromFull(o, ns, s);
    EnqueuePlain(o, popped, k, t);
    assert [] + [t] == [t];
    assert PlaceTask(o, popped, k, t) == popped[k := popped[k].(queue := [t])];
  }

  lemma LongSource(ns: seq<Node>, k: nat, long: nat) returns (s: nat)
    requires k < |ns| && !ns[k].ready && long < |ns| && ns[long].ready && |ns[long].queue| > 1
    ensures s < |ns| && s != k && ns[s].ready && |ns[s].queue| > 1
    ensures FindSource(ns, k, KeysByQueued(ns, true, |ns|)) == Some(s)
  {
    hide FindSource, KeysByQueued;
    StealsFromFullest(ns, k);
    assert CanStealFrom(ns, k, long);
    s := FindSource(ns, k, KeysByQueued(ns, true, |ns|)).value;
    assert s == long || Precedes(ns, true, s, long);
  }

  /** The fullest ready node s holds several tasks: node k gets the last of them. */
  lemma EmptiedTakes(o: Options, ns: seq<Node>, k: nat) returns (s: nat)
    requires LastOne(o, ns, k) && !AtMostOne(ns)
    ensures s < |ns| && s != k && ns[s].ready && |ns[s].queue| > 1
    ensures var m := Emptied(o, ns, k);
      && !m[k].ready && |m[k].queue| == 1 && m[k].executing == ns[k].executing && m[k].emptyQueueCount > 0
      && m[s] == ns[s].(queue := m[s].queue) && |m[s].queue| == |ns[s].queue| - 1
      && forall j :: 0 <= j < |ns| && j != s && j != k ==> m[j] == ns[j]
  {
    hide Cascaded, WorkConserving, StealTask, FindSource, KeysByQueued;
    LastUnfolds(o, ns, k);
    var started := ns[k := ns[k].(queue := [], emptyQueueCount := 1)];
    var long :| 0 <= long < |ns| && ns[long].ready && |ns[long].queue| > 1;
    s := LongSource(started, k, long);
    StealFromLong(o, started, s, k);
  }

  /** All ready nodes hold at most one task: a chain of steals ends at node e. */
  lemma EmptiedChains(o: Options, ns: seq<Node>, k: nat) returns (e: nat)
    requires LastOne(o, ns, k) && AtMostOne(ns) && exists j :: 0 <= j < |ns| && Holds(ns, j)
    ensures e != k && ChainEnds(ns, e) && Chained(ns[k := ns[k].(queue := [])], Emptied(o, ns, k), k, e)
    ensures |Emptied(o, ns, k)[k].queue| == 1
  {
    hide TaskStealingOnEmptyQueue, Cascaded, WorkConserving;
    LastUnfolds(o, ns, k);
    var started := ns[k := ns[k].(queue := [], emptyQueueCount := 1)];
    forall j | 0 <= j < |ns| && started[j].ready
      ensures |started[j].queue| <= 1 && (started[j].queue != [] ==> o.concurrency <= started[j].executing)
    {
      BusyAt(o, ns, j);
    }
    var h :| 0 <= h < |ns| && Holds(ns, h);
    assert Holds(started, h);
    e := ChainSteals(o, started, k);
    forall j | 0 <= j < |ns| ensures Holds(ns, j) <==> Holds(started, j) {
    }
  }

  lemma BusyAt(o: Options, ns: seq<Node>, j: nat)
    requires WorkConserving(o, ns) && j < |ns|
    ensures Busy(o, ns[j])
  {
  }
}
