/**
  Redistribution when worker 0 itself fails and its node may steal while its queue is emptied: exactly
  when the loop ends, by what can be seen of the nodes before it starts.
 */
module FirstWorker {
  import opened Wrappers
  import opened WorkerNodes
  import opened Cascade
  import opened PoolMachine
  import opened Redistribution
  import opened StealingOrder
  import opened EmptyingSteals

  // ---- Where an empty queue comes in the sorted copy ----

  /** The number of nodes below n with empty queues. */
  function EmptiesBelow(ns: seq<Node>, n: nat): (r: nat)
    requires n <= |ns|
    ensures r <= n
  {
    if n == 0 then 0 else EmptiesBelow(ns, n - 1) + if ns[n - 1].queue == [] then 1 else 0
  }

  lemma {:induction false} EmptiesGrow(ns: seq<Node>, m: nat, n: nat)
    requires m <= n <= |ns|
    ensures EmptiesBelow(ns, m) <= EmptiesBelow(ns, n)
    ensures m < n && ns[m].queue == [] ==> EmptiesBelow(ns, m) < EmptiesBelow(ns, n)
  {
    if m < n {
      EmptiesGrow(ns, m, n - 1);
    }
  }

  lemma {:induction false} EmptiesSame(ns: seq<Node>, r: seq<Node>, n: nat)
    requires n <= |ns| == |r| && forall j :: 0 <= j < n ==> (ns[j].queue == [] <==> r[j].queue == [])
    ensures EmptiesBelow(r, n) == EmptiesBelow(ns, n)
  {
    if n > 0 {
      EmptiesSame(ns, r, n - 1);
    }
  }

  lemma {:induction false} NoEmpties(ns: seq<Node>, n: nat)
    requires n <= |ns|
    ensures EmptiesBelow(ns, n) == 0 <==> forall j :: 0 <= j < n ==> ns[j].queue != []
  {
    if n > 0 {
      NoEmpties(ns, n - 1);
    }
  }

  /** The keys below n, with those of empty queues first and in key order. */
  ghost predicate EmptiesLead(ns: seq<Node>, order: seq<nat>, n: nat) {
    && n <= |ns| && |order| == n && (forall i :: 0 <= i < n ==> order[i] < |ns|)
    && (forall e :: 0 <= e < n && ns[e].queue == [] ==> LeadsAt(ns, order, e))
    && forall i :: 0 <= i < n ==> (ns[order[i]].queue == [] <==> i < EmptiesBelow(ns, n))
  }

  predicate LeadsAt(ns: seq<Node>, order: seq<nat>, e: nat)
    requires e < |ns|
  {
    EmptiesBelow(ns, e) < |order| && order[EmptiesBelow(ns, e)] == e
  }

  lemma InsertionLeads(ns: seq<Node>, order: seq<nat>, key: nat, at: nat)
    requires key < |ns| && EmptiesLead(ns, order, key) && EmptiesBelow(ns, key) <= at <= key
    requires ns[key].queue == [] ==> at == EmptiesBelow(ns, key)
    ensures EmptiesLead(ns, order[..at] + [key] + order[at..], key + 1)
  {
    var r := order[..at] + [key] + order[at..];
    assert EmptiesBelow(ns, key + 1) == EmptiesBelow(ns, key) + if ns[key].queue == [] then 1 else 0;
    hide EmptiesBelow;
    forall e | 0 <= e < key + 1 && ns[e].queue == [] ensures LeadsAt(ns, r, e) {
      if e < key {
        assert LeadsAt(ns, order, e);
        EmptiesGrow(ns, e, key);
      }
    }
    forall i | 0 <= i < key + 1 ensures ns[r[i]].queue == [] <==> i < EmptiesBelow(ns, key + 1) {
      assert r[i] == if i < at then order[i] else if i == at then key else order[i - 1];
    }
  }

  /** In ascending order the empty queues come first, by key. */
  lemma {:induction false} EmptiesFirst(ns: seq<Node>, n: nat)
    requires n <= |ns|
    ensures EmptiesLead(ns, KeysByQueued(ns, false, n), n)
  {
    hide Insert, EmptiesLead;
    if n == 0 {
      assert EmptiesLead(ns, [], 0) by { NothingLeads(ns); }
    } else {
      var order, key := KeysByQueued(ns, false, n - 1), n - 1;
      EmptiesFirst(ns, key);
      var at := PlaceOf(ns, order, key, key);
      InsertedAt(ns, false, order, key, at);
      InsertionLeads(ns, order, key, at);
    }
  }

  lemma NothingLeads(ns: seq<Node>)
    ensures EmptiesLead(ns, [], 0)
  {
  }

  /** The position of an insertion: behind everything that is not longer, and so behind all empty queues. */
  lemma {:induction false} PlaceOf(ns: seq<Node>, order: seq<nat>, key: nat, n: nat) returns (at: nat)
    requires key < |ns| && EmptiesLead(ns, order, key) && n <= |order|
    requires EmptiesBelow(ns, key) <= n
    requires forall j :: n <= j < |order| ==> Before(ns, false, key, order[j])
    ensures EmptiesBelow(ns, key) <= at <= |order|
    ensures forall j :: at <= j < |order| ==> Before(ns, false, key, order[j])
    ensures at > 0 ==> !Before(ns, false, key, order[at - 1])
    ensures ns[key].queue == [] ==> at == EmptiesBelow(ns, key)
  {
    if n > 0 && Before(ns, false, key, order[n - 1]) {
      at := PlaceOf(ns, order, key, n - 1);
    } else {
      at := n;
    }
  }

  // ---- Back pressure at a size of two, with a single ready node whose queue is empty ----

  ghost predicate LoneEmpty(ns: seq<Node>, k: nat, e: nat) {
    && k < |ns| && e < |ns| && k != e && ns[e].ready && ns[e].queue == []
    && forall j {:trigger ns[j]} :: 0 <= j < |ns| && j != k && j != e && ns[j].ready ==> ns[j].queue != []
  }

  lemma {:induction false} NonePasses(o: Options, ns: seq<Node>, k: nat, order: seq<nat>, i: nat, n: nat)
    requires k < |ns| && i <= n <= |order| == |ns| && forall j :: 0 <= j < |order| ==> order[j] < |ns|
    requires forall j :: i <= j < n ==> !Passes(o, ns, k, order[j])
    ensures StealFromFull(o, ns, k, order, i) == StealFromFull(o, ns, k, order, n)
    decreases n - i
  {
    hide StealTask, Cascaded, WorkConserving;
    if i < n {
      NonePasses(o, ns, k, order, i + 1, n);
    }
  }

  lemma LonePosition(o: Options, ns: seq<Node>, k: nat, e: nat)
    requires o.size == 2 && LoneEmpty(ns, k, e)
    ensures var order, p := KeysByQueued(ns, false, |ns|), EmptiesBelow(ns, e);
      && p < |ns| && order[p] == e
      && forall i :: 0 <= i < |ns| && i != p ==> order[i] != e && !Passes(o, ns, k, order[i])
  {
    hide KeysByQueued, EmptiesBelow;
    var order, p := KeysByQueued(ns, false, |ns|), EmptiesBelow(ns, e);
    EmptiesFirst(ns, |ns|);
    assert LeadsAt(ns, order, e);
    KeysSorted(ns, false, |ns|);
    forall i | 0 <= i < |ns| && i != p ensures order[i] != e && !Passes(o, ns, k, order[i]) {
      assert if i < p then Precedes(ns, false, order[i], order[p]) else Precedes(ns, false, order[p], order[i]);
    }
  }

  /** The loop of a full node k steals once, into the node whose key is the position of the lone empty one. */
  lemma StealsOnce(o: Options, ns: seq<Node>, k: nat, e: nat, r: seq<Node>)
    requires o.size == 2 && LoneEmpty(ns, k, e) && ns[k].queue != []
    requires EmptiesBelow(ns, e) < |ns| && r == StealTask(o, ns, k, EmptiesBelow(ns, e)) && |r| == |ns|
    requires forall j :: 0 <= j < |ns| && j != k && j != e && r[j].ready ==> r[j].queue != []
    ensures TasksStealingOnBackPressure(o, ns, k) == r
  {
    hide KeysByQueued, EmptiesBelow, StealTask, Cascaded, WorkConserving;
    var order, p := KeysByQueued(ns, false, |ns|), EmptiesBelow(ns, e);
    LonePosition(o, ns, k, e);
    NonePasses(o, ns, k, order, 0, p);
    assert Passes(o, ns, k, order[p]);
    assert StealFromFull(o, ns, k, order, p) == StealFromFull(o, r, k, order, p + 1);
    NonePasses(o, r, k, order, p + 1, |ns|);
  }

  lemma KeyIsPosition(o: Options, ns: seq<Node>, k: nat, e: nat)
    requires o.size == 2 && LoneEmpty(ns, k, e) && |ns[k].queue| > 1 && ns[k].backPressureStarted
    requires EmptiesBelow(ns, e) == k
    ensures TasksStealingOnBackPressure(o, ns, k) == ns[k := ns[k].(stolen := ns[k].stolen + 1)]
  {
    hide EmptiesBelow, StealTask, Cascaded, WorkConserving, TasksStealingOnBackPressure;
    StealFromItself(o, ns, k);
    StealsOnce(o, ns, k, e, ns[k := ns[k].(stolen := ns[k].stolen + 1)]);
  }

  /** Node b is node a with one more task in its queue. */
  predicate Grown(a: Node, b: Node) {
    && b.ready == a.ready && b.executing == a.executing && b.backPressureStarted == a.backPressureStarted
    && b.emptyQueueCount == a.emptyQueueCount && |b.queue| == |a.queue| + 1
  }

  /** A node that fills up keeps the task, if its key is the position of the lone empty node, or its guard is up. */
  lemma EnqueueKeeps(o: Options, ns: seq<Node>, k: nat, e: nat, t: Task)
    requires o.size == 2 && LoneEmpty(ns, k, e) && ns[k].queue != []
    requires EmptiesBelow(ns, e) == k || ns[k].backPressureStarted
    ensures var r := EnqueueTask(o, ns, k, t);
      r == ns[k := r[k]] && Grown(ns[k], r[k])
  {
    hide EmptiesBelow, Cascaded, WorkConserving, TasksStealingOnBackPressure;
    var pushed := ns[k := ns[k].(queue := ns[k].queue + [t])];
    if o.StealsOnBackPressure() && !pushed[k].backPressureStarted {
      var started := pushed[k := pushed[k].(backPressureStarted := true)];
      EmptiesSame(ns, started, e);
      KeyIsPosition(o, started, k, e);
    }
  }

  /** The stolen task reaches some node p other than the full node 0 and the empty node e, and stays there. */
  lemma PlaceElsewhere(o: Options, ns: seq<Node>, e: nat, p: nat, t: Task)
    requires o.size == 2 && LoneEmpty(ns, 0, e) && ns[0].queue != [] && !ns[0].ready
    requires 0 < p == EmptiesBelow(ns, e) < e
    ensures var r := PlaceTask(o, ns, p, t);
      && r == ns[p := r[p]] && r[p].ready == ns[p].ready && (ns[p].queue != [] ==> r[p].queue != [])
  {
    hide EmptiesBelow, Cascaded, WorkConserving, EnqueueTask;
    if !ShallExecuteTask(o, ns, p) {
      if ns[p].queue == [] {
        EnqueuePlain(o, ns, p, t);
      } else {
        EnqueueKeeps(o, ns, p, e, t);
      }
    }
  }

  lemma RelievedOnce(o: Options, ns: seq<Node>, e: nat)
    requires o.size == 2 && LoneEmpty(ns, 0, e) && |ns[0].queue| == 2 && !ns[0].ready
    requires 0 < EmptiesBelow(ns, e)
    ensures var r := TasksStealingOnBackPressure(o, ns, 0);
      |r| == |ns| && r[0] == ns[0].(queue := ns[0].queue[..1]) && r[e] == ns[e]
  {
    hide EmptiesBelow, Cascaded, WorkConserving, TasksStealingOnBackPressure, PopTask, PlaceTask;
    var p := EmptiesBelow(ns, e);
    FirstIsFull(ns, e);
    PopFromFull(o, ns, 0);
    var popped := ns[0 := ns[0].(queue := ns[0].queue[..1])];
    EmptiesSame(ns, popped, e);
    PlaceElsewhere(o, popped, e, p, ns[0].queue[1]);
    var placed := PlaceTask(o, popped, p, ns[0].queue[1]);
    var r := placed[p := placed[p].(stolen := placed[p].stolen + 1)];
    assert StealTask(o, ns, 0, p) == r;
    StealsOnce(o, ns, 0, e, r);
  }

  lemma {:induction false} FirstIsFull(ns: seq<Node>, n: nat)
    requires 0 < n <= |ns| && ns[0].queue != []
    ensures EmptiesBelow(ns, n) < n
  {
    if n > 1 {
      FirstIsFull(ns, n - 1);
    } else {
      assert EmptiesBelow(ns, 0) == 0;
    }
  }

  // ---- The condition ----

  ghost predicate DetourAt(ns: seq<Node>, j: nat, i: nat) {
    && 0 < j < i < |ns| && ns[i].ready && !ns[j].ready && ns[j].queue == []
    && forall h :: 0 < h < i && ns[h].ready ==> ns[h].emptyQueueCount == 0
  }

  /** An idle node that is down comes before the node at which a chain of steals ends. */
  ghost predicate Detour(ns: seq<Node>) {
    exists j, i :: DetourAt(ns, j, i)
  }

  /**
    Whether the other nodes will take all tasks of worker 0. With stealing, one unit of room has to be
    left over for the task stolen by node 0, unless the steal itself frees that room; and with a size
    of two and both kinds of stealing, the last task may also find its way to a node that is down.
   */
  ghost predicate HasRoom(o: Options, ns: seq<Node>)
    requires 0 < |ns|
  {
    var tasks, room := |ns[0].queue|, Capacity(o, ns, |ns|);
    if tasks == 0 then true
    else if Failing(o, ns, 0) then tasks <= room
    else
      || tasks < room
      || (tasks == room && AtMostOne(ns))
      || (tasks == room + 1 && AtMostOne(ns) && Detour(ns)
          && o.StealsOnBackPressure() && o.size == 2 && !ns[0].backPressureStarted)
  }

  lemma DetourSame(ns: seq<Node>, r: seq<Node>)
    requires |r| == |ns| && Detour(ns)
    requires forall j :: 0 < j < |ns| ==> (
      && r[j].ready == ns[j].ready && r[j].emptyQueueCount == ns[j].emptyQueueCount
      && (!ns[j].ready ==> r[j].queue == ns[j].queue))
    ensures Detour(r)
  {
    var j, i :| DetourAt(ns, j, i);
    assert DetourAt(r, j, i);
  }

  // ---- While node 0 has more than one task ----

  /** Only the destination, a ready node, changes beside node 0, which loses its first task. */
  lemma LongQueueGives(o: Options, ns: seq<Node>)
    requires 0 < |ns| && !ns[0].ready && |ns[0].queue| > 1 && RedistributionTarget(ns, |ns|) != 0
    ensures var r, target := RedistributeOne(o, ns, 0), RedistributionTarget(ns, |ns|);
      && r[0] == ns[0].(queue := ns[0].queue[1..]) && ns[target].ready && |ns[target].queue| < |ns[0].queue|
      && r == ns[0 := r[0]][target := r[target]]
      && r[target].ready && r[target].emptyQueueCount == ns[target].emptyQueueCount
      && (if ShallExecuteTask(o, ns, target) then
            r[target].queue == [] && r[target].executing == ns[target].executing + 1
          else |r[target].queue| == |ns[target].queue| + 1 && r[target].executing == ns[target].executing)
  {
    hide RedistributeOne, RedistributionTarget;
    IterationFromFirst(o, ns);
    TargetBeatsFirst(ns, |ns|);
  }

  lemma LongQueueWithRoom(o: Options, ns: seq<Node>)
    requires 0 < |ns| && !ns[0].ready && !Failing(o, ns, 0) && |ns[0].queue| > 1 && Capacity(o, ns, |ns|) > 0
    ensures var r := RedistributeOne(o, ns, 0);
      && !r[0].ready && !Failing(o, r, 0) && |r[0].queue| == |ns[0].queue| - 1
      && (HasRoom(o, r) <==> HasRoom(o, ns))
  {
    hide RedistributeOne, RedistributionTarget, Capacity, Detour;
    var target := RedistributionTarget(ns, |ns|);
    var j := SomeRoom(o, ns, |ns|);
    TargetIsMinimal(ns, |ns|);
    assert ns[target].queue == [] && target != 0;
    LongQueueGives(o, ns);
    var r := RedistributeOne(o, ns, 0);
    CapacityUpdate(o, ns, r, target, |ns|);
    if Detour(ns) {
      DetourSame(ns, r);
    }
    if Detour(r) {
      DetourSame(r, ns);
    }
    assert AtMostOne(r) <==> AtMostOne(ns) by {
      assert |r[target].queue| <= 1;
      forall j | 0 < j < |ns| && j != target ensures r[j] == ns[j] {
      }
    }
  }

  lemma LongQueueWithoutRoom(o: Options, ns: seq<Node>)
    requires 0 < |ns| && !ns[0].ready && !Failing(o, ns, 0) && |ns[0].queue| > 1 && Capacity(o, ns, |ns|) == 0
    requires RedistributionTarget(ns, |ns|) != 0
    ensures var r := RedistributeOne(o, ns, 0);
      && !r[0].ready && !Failing(o, r, 0) && |r[0].queue| == |ns[0].queue| - 1
      && !HasRoom(o, r) && !HasRoom(o, ns)
  {
    hide RedistributeOne, RedistributionTarget, Capacity, Detour;
    var target := RedistributionTarget(ns, |ns|);
    LongQueueGives(o, ns);
    var r := RedistributeOne(o, ns, 0);
    RoomCounts(o, ns, |ns|, target);
    CapacitySame(o, ns, r, |ns|);
    assert |r[target].queue| > 1 && target > 0;
  }

  /** The task goes to a ready node with an empty queue. */
  lemma PlaceInRoom(o: Options, m: seq<Node>, j: nat, t: Task)
    requires 0 < j < |m| && m[j].ready && m[j].queue == []
    ensures var r := PlaceTask(o, m, j, t);
      r == m[j := r[j]] && Capacity(o, r, |m|) == Capacity(o, m, |m|) - 1
  {
    hide Cascaded, WorkConserving, EnqueueTask, Capacity;
    EnqueuePlain(o, m, j, t);
    CapacityUpdate(o, m, PlaceTask(o, m, j, t), j, |m|);
  }

  /** The end of a chain becomes room for one task. */
  lemma ChainFrees(o: Options, ns: seq<Node>, m: seq<Node>, e: nat)
    requires 0 < |ns| && WorkConserving(o, ns) && 0 < e && ChainEnds(ns, e) && AtMostOne(ns)
    requires Chained(ns[0 := ns[0].(queue := [])], m, 0, e)
    ensures Capacity(o, m, |ns|) == Capacity(o, ns, |ns|) + 1
    ensures m[e].ready && m[e].queue == []
  {
    hide Capacity;
    BusyAt(o, ns, e);
    CapacityUpdate(o, m, ns, e, |ns|);
  }

  lemma LastWithRoom(o: Options, ns: seq<Node>)
    requires LastOne(o, ns, 0) && Capacity(o, ns, |ns|) > 0
    ensures var r := RedistributeOne(o, ns, 0);
      |r| == |ns| && (|r[0].queue| <= Capacity(o, r, |ns|) <==> HasRoom(o, ns))
  {
    hide RedistributeOne, RedistributionTarget, Capacity, Detour, WorkConserving, PlaceTask, Emptied, LastOne;
    assert LastOne(o, ns, 0) ==> 0 < |ns| && |ns[0].queue| == 1 && !Failing(o, ns, 0) by { LastIs(o, ns, 0); }
    var t, j, m := ns[0].queue[0], RedistributionTarget(ns, |ns|), Emptied(o, ns, 0);
    TargetHasRoom(o, ns);
    LastUnfolds(o, ns, 0);
    if forall h :: 0 <= h < |ns| ==> !Holds(ns, h) {
      EmptiedAlone(o, ns, 0);
      PlaceInRoom(o, m, j, t);
      forall h | 0 < h < |ns| && ns[h].ready ensures ns[h].queue == [] {
        assert !Holds(ns, h);
      }
    } else if AtMostOne(ns) {
      var e := EmptiedChains(o, ns, 0);
      ChainFreesLast(o, ns, e);
      assert j != e && SameShape(ns[0 := ns[0].(queue := [])][j], m[j]);
      PlaceInRoom(o, m, j, t);
    } else {
      var s := EmptiedTakes(o, ns, 0);
      CapacitySame(o, ns, m, |ns|);
      PlaceInRoom(o, m, j, t);
    }
  }

  lemma ChainFreesLast(o: Options, ns: seq<Node>, e: nat)
    requires LastOne(o, ns, 0) && 0 < e && ChainEnds(ns, e) && AtMostOne(ns)
    requires Chained(ns[0 := ns[0].(queue := [])], Emptied(o, ns, 0), 0, e)
    ensures Capacity(o, Emptied(o, ns, 0), |ns|) == Capacity(o, ns, |ns|) + 1
    ensures Emptied(o, ns, 0)[e].ready && Emptied(o, ns, 0)[e].queue == []
  {
    hide Capacity, WorkConserving, Emptied;
    ChainFrees(o, ns, Emptied(o, ns, 0), e);
  }

  lemma TargetHasRoom(o: Options, ns: seq<Node>)
    requires 0 < |ns| && Capacity(o, ns, |ns|) > 0 && ns[0].queue != []
    ensures var j := RedistributionTarget(ns, |ns|);
      0 < j && ns[j].ready && ns[j].queue == []
  {
    hide RedistributionTarget, Capacity;
    var i := SomeRoom(o, ns, |ns|);
    TargetIsMinimal(ns, |ns|);
  }

  lemma NoRoomMeansFull(o: Options, ns: seq<Node>, j: nat)
    requires 0 < j < |ns| && Capacity(o, ns, |ns|) == 0 && ns[j].ready
    ensures ns[j].queue != []
  {
    hide Capacity;
    RoomCounts(o, ns, |ns|, j);
  }

  lemma LastBackToFirst(o: Options, ns: seq<Node>)
    requires 0 < |ns| && Capacity(o, ns, |ns|) == 0 && |ns[0].queue| == 1
    ensures RedistributionTarget(ns, |ns|) == 0
  {
    hide RedistributionTarget, Capacity;
    if RedistributionTarget(ns, |ns|) != 0 {
      TargetBeatsFirst(ns, |ns|);
      NoRoomMeansFull(o, ns, RedistributionTarget(ns, |ns|));
    }
  }

  /** The task goes back to the queue of node 0. */
  lemma PutBackPlain(o: Options, m: seq<Node>, t: Task)
    requires 0 < |m| && o.concurrency <= m[0].executing
    requires !o.StealsOnBackPressure() || o.size <= 1 || |m[0].queue| + 1 < o.size
      || Shortest(m, 0) || m[0].backPressureStarted
    ensures var r := PlaceTask(o, m, 0, t);
      && r == m[0 := m[0].(queue := m[0].queue + [t])] && Capacity(o, r, |m|) == Capacity(o, m, |m|)
  {
    hide Cascaded, WorkConserving, TasksStealingOnBackPressure, Capacity;
    var pushed := m[0 := m[0].(queue := m[0].queue + [t])];
    if !m[0].backPressureStarted {
      EnqueuePlain(o, m, 0, t);
    }
    assert PlaceTask(o, m, 0, t) == pushed;
    CapacitySame(o, m, pushed, |m|);
  }

  lemma LastWithoutRoom(o: Options, ns: seq<Node>)
    requires LastOne(o, ns, 0) && Capacity(o, ns, |ns|) == 0
    ensures var r := RedistributeOne(o, ns, 0);
      |r| == |ns| && (|r[0].queue| <= Capacity(o, r, |ns|) <==> HasRoom(o, ns))
  {
    hide RedistributeOne, RedistributionTarget, Capacity, WorkConserving, PlaceTask, Emptied, LastOne, Detour;
    LastIs(o, ns, 0);
    var t, m := ns[0].queue[0], Emptied(o, ns, 0);
    LastBackToFirst(o, ns);
    LastUnfolds(o, ns, 0);
    if forall h :: 0 <= h < |ns| ==> !Holds(ns, h) {
      EmptiedAlone(o, ns, 0);
      CapacitySame(o, ns, m, |ns|);
      PutBackPlain(o, m, t);
      NoDetour(o, ns);
    } else if AtMostOne(ns) {
      LastChained(o, ns);
    } else {
      var s := EmptiedTakes(o, ns, 0);
      CapacitySame(o, ns, m, |ns|);
      forall j | 0 < j < |ns| && m[j].ready ensures m[j].queue != [] {
        NoRoomMeansFull(o, ns, j);
      }
      PutBackPlain(o, m, t);
    }
  }

  lemma NoDetour(o: Options, ns: seq<Node>)
    requires 0 < |ns| && Capacity(o, ns, |ns|) == 0 && forall h :: 0 <= h < |ns| ==> !Holds(ns, h)
    ensures !Detour(ns)
  {
    if Detour(ns) {
      var j: nat, i: nat :| DetourAt(ns, j, i);
      NoRoomMeansFull(o, ns, i);
      assert Holds(ns, i);
    }
  }

  /** Without room, the chain of steals passes an idle node that is down if and only if one comes before its end. */
  lemma DetourIsPosition(o: Options, ns: seq<Node>, r: seq<Node>, e: nat)
    requires 0 < |ns| == |r| && !ns[0].ready && Capacity(o, ns, |ns|) == 0 && 0 < e && ChainEnds(ns, e)
    requires r[0].queue != [] && forall j :: 0 < j < e ==> (r[j].queue == [] <==> ns[j].queue == [])
    ensures Detour(ns) <==> 0 < EmptiesBelow(r, e)
  {
    hide EmptiesBelow, Capacity;
    NoEmpties(r, e);
    if 0 < EmptiesBelow(r, e) {
      var j :| 0 <= j < e && r[j].queue == [];
      if ns[j].ready {
        NoRoomMeansFull(o, ns, j);
      }
      forall h | 0 < h < e && ns[h].ready ensures ns[h].emptyQueueCount == 0 {
        NoRoomMeansFull(o, ns, h);
        assert Holds(ns, h);
      }
      assert DetourAt(ns, j, e);
    }
    if Detour(ns) {
      var j: nat, i: nat :| DetourAt(ns, j, i);
      NoRoomMeansFull(o, ns, i);
      assert Holds(ns, i);
      assert j < e;
    }
  }

  lemma LastChained(o: Options, ns: seq<Node>)
    requires LastOne(o, ns, 0) && Capacity(o, ns, |ns|) == 0 && AtMostOne(ns)
    requires exists h :: 0 <= h < |ns| && Holds(ns, h)
    ensures var r := RedistributeOne(o, ns, 0);
      |r| == |ns| && (|r[0].queue| <= Capacity(o, r, |ns|) <==> HasRoom(o, ns))
  {
    hide RedistributeOne, RedistributionTarget, Capacity, WorkConserving, PlaceTask, Emptied, LastOne;
    hide Detour, EmptiesBelow;
    LastIs(o, ns, 0);
    var t, m := ns[0].queue[0], Emptied(o, ns, 0);
    LastBackToFirst(o, ns);
    LastUnfolds(o, ns, 0);
    var e := EmptiedChains(o, ns, 0);
    ChainFreesLast(o, ns, e);
    if !o.StealsOnBackPressure() || o.size != 2 || ns[0].backPressureStarted {
      PutBackPlain(o, m, t);
    } else {
      assert LoneEmpty(m, 0, e) by {
        forall j | 0 < j < |ns| && j != e && m[j].ready ensures m[j].queue != [] {
          NoRoomMeansFull(o, ns, j);
        }
      }
      forall j | 0 < j < e ensures m[j].queue == [] <==> ns[j].queue == [] {
        assert SameShape(ns[0 := ns[0].(queue := [])][j], m[j]);
      }
      DetourIsPosition(o, ns, m, e);
      LastFillsUp(o, m, e, t);
    }
  }

  lemma CascadeKeepsNodes(o: Options, ns: seq<Node>, k: nat)
    requires k < |ns|
    ensures |TasksStealingOnBackPressure(o, ns, k)| == |ns|
  {
  }

  /** At a size of two the last task fills up node 0, which keeps it or loses it to a node that is down. */
  lemma LastFillsUp(o: Options, m: seq<Node>, e: nat, t: Task)
    requires o.StealsOnBackPressure() && o.size == 2 && LoneEmpty(m, 0, e) && Capacity(o, m, |m|) == 1
    requires |m[0].queue| == 1 && !m[0].ready && !m[0].backPressureStarted && o.concurrency <= m[0].executing
    ensures var r := PlaceTask(o, m, 0, t);
      |r| == |m| && (|r[0].queue| <= Capacity(o, r, |m|) <==> 0 < EmptiesBelow(m, e))
  {
    hide Cascaded, WorkConserving, TasksStealingOnBackPressure, Capacity, EmptiesBelow;
    var started := m[0 := m[0].(queue := m[0].queue + [t], backPressureStarted := true)];
    var pushed := m[0 := m[0].(queue := m[0].queue + [t])];
    assert pushed[0 := pushed[0].(backPressureStarted := true)] == started;
    EmptiesSame(m, started, e);
    var stolen := TasksStealingOnBackPressure(o, started, 0);
    CascadeKeepsNodes(o, started, 0);
    var r := stolen[0 := stolen[0].(backPressureStarted := false)];
    assert EnqueueTask(o, m, 0, t) == r;
    assert PlaceTask(o, m, 0, t) == r;
    if 0 < EmptiesBelow(m, e) {
      RelievedOnce(o, started, e);
      assert r[e] == m[e] && |r[0].queue| == 1;
      RoomCounts(o, r, |m|, e);
    } else {
      KeyIsPosition(o, started, 0, e);
      CapacitySame(o, m, r, |m|);
    }
  }

  // ---- Exactly when the loop ends ----

  /**
    Exactly when redistribution from a failed worker 0 ends, under any options and in any pool that
    conserves work, as every reachable one does: if and only if the other nodes, as they are before
    the loop starts, have room for all its tasks. For all other workers it always ends.
   */
  lemma {:induction false} FirstEndsExactly(o: Options, ns: seq<Node>)
    requires 0 < |ns| && !ns[0].ready && WorkConserving(o, ns)
    ensures Ends(o, ns, 0) <==> HasRoom(o, ns)
    decreases |ns[0].queue|
  {
    hide RedistributeOne, Capacity, Detour, AtMostOne, WorkConserving, RedistributionTarget;
    if ns[0].queue == [] {
      assert Iterate(o, ns, 0, 0)[0].queue == [];
    } else if Failing(o, ns, 0) {
      BusyAt(o, ns, 0);
      RedistributionEnds(o, ns, 0);
    } else {
      var r := RedistributeOne(o, ns, 0);
      EndsOneLater(o, ns, 0);
      IterationKeeps(o, ns, 0);
      if |ns[0].queue| == 1 {
        LastTaskStartsLoop(o, ns, 0);
        BusyAt(o, r, 0);
        RedistributionEnds(o, r, 0);
        if Capacity(o, ns, |ns|) > 0 {
          LastWithRoom(o, ns);
        } else {
          LastWithoutRoom(o, ns);
        }
      } else if Capacity(o, ns, |ns|) > 0 {
        LongQueueWithRoom(o, ns);
        FirstEndsExactly(o, r);
      } else if RedistributionTarget(ns, |ns|) != 0 {
        LongQueueWithoutRoom(o, ns);
        FirstEndsExactly(o, r);
      } else {
        NeverEnds(o, ns);
      }
    }
  }
}
