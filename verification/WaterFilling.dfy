/**
  Where the tasks of a failed worker pile up when its node may steal while it is emptied: with one of
  the two kinds of stealing at most, the queues are level in the end, as they are without stealing.
 */
module WaterFilling {
  import opened WorkerNodes
  import opened Cascade
  import opened PoolMachine
  import opened Redistribution
  import opened EmptyingSteals

  /** A node other than k whose queue got longer is at most one task longer than any node that may be chosen. */
  ghost predicate Level(base: seq<Node>, ns: seq<Node>, k: nat) {
    && |ns| == |base|
    && forall j, i {:trigger LevelAt(base, ns, j, i)} ::
      0 <= j < |ns| && j != k && 0 <= i < |ns| && Candidate(ns, i) ==> LevelAt(base, ns, j, i)
  }

  predicate LevelAt(base: seq<Node>, ns: seq<Node>, j: int, i: int)
    requires |ns| == |base| && 0 <= j < |ns| && 0 <= i < |ns|
  {
    |ns[j].queue| > |base[j].queue| ==> |ns[j].queue| <= |ns[i].queue| + 1
  }

  /** A task placed on node t is queued there, or executed if the node is idle. */
  predicate Placed(a: Node, b: Node) {
    |b.queue| == |a.queue| + 1 || (b.queue == a.queue == [])
  }

  /** One task goes to a shortest of the queues that may be chosen. */
  lemma PlacedStaysLevel(base: seq<Node>, ns: seq<Node>, r: seq<Node>, k: nat, t: nat)
    requires Level(base, ns, k) && |r| == |ns| && t < |ns|
    requires forall i :: 0 <= i < |ns| ==> (Candidate(r, i) <==> Candidate(ns, i))
    requires forall i :: 0 <= i < |ns| && Candidate(ns, i) ==> |ns[t].queue| <= |ns[i].queue| <= |r[i].queue|
    requires Placed(ns[t], r[t]) && forall j :: 0 <= j < |ns| && j != k && j != t ==> |r[j].queue| == |ns[j].queue|
    ensures Level(base, r, k)
  {
    forall j, i | 0 <= j < |r| && j != k && 0 <= i < |r| && Candidate(r, i) ensures LevelAt(base, r, j, i) {
      assert LevelAt(base, ns, j, i);
    }
  }

  /**
    A task is placed on a shortest queue t while node x loses one to the failed node, and then that
    one is placed on what is a shortest queue by then: nothing that steal unbalanced stays so.
   */
  lemma DebtIsRepaid(base: seq<Node>, ns: seq<Node>, m: seq<Node>, r: seq<Node>, k: nat, x: nat, t: nat, u: nat)
    requires Level(base, ns, k) && |r| == |m| == |ns| && x < |ns| && t < |ns| && u < |ns|
    requires forall i :: 0 <= i < |ns| ==> (Candidate(m, i) <==> Candidate(ns, i))
    requires forall i :: 0 <= i < |ns| ==> (Candidate(r, i) <==> Candidate(ns, i))
    requires Candidate(ns, x) && Candidate(ns, t) && Candidate(ns, u) && k < |ns| && !Candidate(ns, k)
    requires forall i :: 0 <= i < |ns| && Candidate(ns, i) ==> |ns[t].queue| <= |ns[i].queue|
    requires forall j :: 0 <= j < |ns| && j != k && j != x && j != t ==> |m[j].queue| == |ns[j].queue|
    requires if t == x then |m[x].queue| == |ns[x].queue| else |m[x].queue| + 1 == |ns[x].queue| && Placed(ns[t], m[t])
    requires forall i :: 0 <= i < |ns| && Candidate(ns, i) ==> |m[u].queue| <= |m[i].queue|
    requires forall j :: 0 <= j < |ns| && j != k && j != u ==> |r[j].queue| == |m[j].queue|
    requires if u == x then |r[u].queue| == |m[u].queue| + 1 else Placed(m[u], r[u])
    ensures Level(base, r, k)
  {
    forall j, i | 0 <= j < |r| && j != k && 0 <= i < |r| && Candidate(r, i) ensures LevelAt(base, r, j, i) {
      assert LevelAt(base, ns, j, i);
      assert LevelAt(base, ns, j, t);
      assert |m[u].queue| <= |m[x].queue| && |m[u].queue| <= |m[i].queue|;
    }
  }

  /** Options under which queueing a task never sets off back-pressure stealing. */
  predicate NoBackPressure(o: Options) {
    !o.StealsOnBackPressure() || o.size <= 1
  }

  lemma PlaceQuietly(o: Options, ns: seq<Node>, t: nat, task: Task)
    requires t < |ns| && NoBackPressure(o)
    ensures var r := PlaceTask(o, ns, t, task);
      && r == ns[t := r[t]] && Placed(ns[t], r[t])
      && r[t].ready == ns[t].ready && r[t].emptyQueueCount == ns[t].emptyQueueCount
      && (o.concurrency <= ns[t].executing ==> |r[t].queue| == |ns[t].queue| + 1 && r[t].executing == ns[t].executing)
  {
    hide Cascaded, WorkConserving, EnqueueTask;
    EnqueuePlain(o, ns, t, task);
  }

  lemma PlainStaysLevel(o: Options, base: seq<Node>, ns: seq<Node>, k: nat)
    requires Undisturbed(o, ns, k) && k > 0 && Level(base, ns, k)
    ensures Level(base, RedistributeOne(o, ns, k), k)
  {
    hide RedistributeOne, RedistributionTarget, Level;
    IterationElsewhere(o, ns, k);
    TargetIsMinimal(ns, |ns|);
    PlacedStaysLevel(base, ns, RedistributeOne(o, ns, k), k, RedistributionTarget(ns, |ns|));
  }

  /** Nothing is stolen when the last task goes out. */
  lemma LastAlone(o: Options, base: seq<Node>, ns: seq<Node>, k: nat)
    requires LastOne(o, ns, k) && k > 0 && NoBackPressure(o) && Level(base, ns, k)
    requires forall h :: 0 <= h < |ns| ==> !Holds(ns, h)
    ensures RedistributeOne(o, ns, k)[k].queue == [] && Level(base, RedistributeOne(o, ns, k), k)
  {
    hide RedistributeOne, RedistributionTarget, Level, Emptied, PlaceTask, LastOne;
    LastIs(o, ns, k);
    LastUnfolds(o, ns, k);
    EmptiedAlone(o, ns, k);
    TargetIsMinimal(ns, |ns|);
    var t := RedistributionTarget(ns, |ns|);
    PlaceQuietly(o, Emptied(o, ns, k), t, ns[k].queue[0]);
    PlacedStaysLevel(base, ns, RedistributeOne(o, ns, k), k, t);
  }

  /** Which node lost a task to node k when the last task went out. */
  lemma LastTaken(o: Options, ns: seq<Node>, k: nat) returns (x: nat)
    requires LastOne(o, ns, k) && exists h :: 0 <= h < |ns| && Holds(ns, h)
    ensures x != k && Holds(ns, x) && o.concurrency <= ns[x].executing
    ensures var m := Emptied(o, ns, k);
      && !m[k].ready && |m[k].queue| == 1
      && m[x].ready && |m[x].queue| + 1 == |ns[x].queue| && m[x].executing == ns[x].executing
      && forall j :: 0 <= j < |ns| && j != k && j != x ==> |m[j].queue| == |ns[j].queue| && m[j].ready == ns[j].ready
  {
    hide Emptied, LastOne, Cascaded;
    LastIs(o, ns, k);
    if AtMostOne(ns) {
      x := EmptiedChains(o, ns, k);
      forall j | 0 <= j < |ns| && j != k && j != x
        ensures |Emptied(o, ns, k)[j].queue| == |ns[j].queue| && Emptied(o, ns, k)[j].ready == ns[j].ready
      {
        assert SameShape(ns[k := ns[k].(queue := [])][j], Emptied(o, ns, k)[j]);
      }
    } else {
      x := EmptiedTakes(o, ns, k);
    }
    LastBusy(o, ns, k, x);
  }

  lemma LastBusy(o: Options, ns: seq<Node>, k: nat, x: nat)
    requires LastOne(o, ns, k) && Holds(ns, x)
    ensures o.concurrency <= ns[x].executing
  {
    BusyAt(o, ns, x);
  }

  /** The last task goes out to t, and node k is left with one that it stole. */
  lemma LastMoves(o: Options, ns: seq<Node>, k: nat, t: nat) returns (x: nat)
    requires LastOne(o, ns, k) && NoBackPressure(o) && t == RedistributionTarget(ns, |ns|) && k != 0
    requires exists h :: 0 <= h < |ns| && Holds(ns, h)
    ensures x < |ns| && Candidate(ns, x) && Candidate(ns, t) && !Candidate(ns, k)
    ensures forall i :: 0 <= i < |ns| && Candidate(ns, i) ==> |ns[t].queue| <= |ns[i].queue|
    ensures var m := RedistributeOne(o, ns, k);
      && |m| == |ns| && !m[k].ready && |m[k].queue| == 1 && o.concurrency <= m[x].executing
      && (forall i :: 0 <= i < |ns| ==> (Candidate(m, i) <==> Candidate(ns, i)))
      && (forall j :: 0 <= j < |ns| && j != k && j != x && j != t ==> |m[j].queue| == |ns[j].queue|)
      && if t == x then |m[x].queue| == |ns[x].queue| else |m[x].queue| + 1 == |ns[x].queue| && Placed(ns[t], m[t])
  {
    hide RedistributeOne, RedistributionTarget, Emptied, PlaceTask, LastOne, Cascaded;
    LastIs(o, ns, k);
    x := LastTaken(o, ns, k);
    LastUnfolds(o, ns, k);
    TargetIsMinimal(ns, |ns|);
    PlaceQuietly(o, Emptied(o, ns, k), t, ns[k].queue[0]);
  }

  /** Node k steals when its last task goes out, and gives that one away as well. */
  lemma LastRepaid(o: Options, base: seq<Node>, ns: seq<Node>, k: nat)
    requires LastOne(o, ns, k) && k > 0 && NoBackPressure(o) && Level(base, ns, k)
    requires exists h :: 0 <= h < |ns| && Holds(ns, h)
    ensures var m := RedistributeOne(o, ns, k);
      && |m| == |ns| && |m[k].queue| == 1
      && var r := RedistributeOne(o, m, k);
      r[k].queue == [] && Level(base, r, k)
  {
    hide RedistributeOne, RedistributionTarget, Level, PlaceTask, LastOne, Cascaded;
    LastIs(o, ns, k);
    var t := RedistributionTarget(ns, |ns|);
    var x := LastMoves(o, ns, k, t);
    var m := RedistributeOne(o, ns, k);
    LastStarts(o, ns, k);
    var u := RedistributionTarget(m, |m|);
    TargetIsMinimal(m, |m|);
    FailingPlaces(o, m, k);
    DebtIsRepaid(base, ns, m, RedistributeOne(o, m, k), k, x, t, u);
  }

  /** A node that does not steal hands its only task to a shortest queue. */
  lemma FailingPlaces(o: Options, m: seq<Node>, k: nat)
    requires k < |m| && |m[k].queue| == 1 && Failing(o, m, k) && NoBackPressure(o)
    requires k > 0
    ensures var r, u := RedistributeOne(o, m, k), RedistributionTarget(m, |m|);
      && u < |m| && u != k && |r| == |m| && r[k].queue == [] && Placed(m[u], r[u])
      && (o.concurrency <= m[u].executing ==> |r[u].queue| == |m[u].queue| + 1)
      && (forall j :: 0 <= j < |m| && j != k && j != u ==> |r[j].queue| == |m[j].queue|)
      && forall i :: 0 <= i < |m| ==> (Candidate(r, i) <==> Candidate(m, i))
  {
    hide RedistributeOne, RedistributionTarget, PlaceTask, Cascaded;
    TargetIsMinimal(m, |m|);
    RedistributeOnePlain(o, m, k);
  }

  lemma LastStarts(o: Options, ns: seq<Node>, k: nat)
    requires LastOne(o, ns, k)
    ensures Failing(o, RedistributeOne(o, ns, k), k)
  {
    hide RedistributeOne, WorkConserving;
    LastTaskStartsLoop(o, ns, k);
    IterationKeeps(o, ns, k);
  }

  lemma {:induction false} LevelInTheEnd(o: Options, base: seq<Node>, ns: seq<Node>, k: nat, fuel: nat)
    requires 0 < k < |ns| && !ns[k].ready && WorkConserving(o, ns) && Level(base, ns, k)
    requires Failing(o, ns, k) || NoBackPressure(o)
    requires Iterate(o, ns, k, fuel)[k].queue == []
    ensures Level(base, Iterate(o, ns, k, fuel), k)
    decreases fuel
  {
    hide RedistributeOne, Level, WorkConserving;
    if ns[k].queue != [] {
      var m := RedistributeOne(o, ns, k);
      IterationKeeps(o, ns, k);
      if Undisturbed(o, ns, k) {
        PlainStaysLevel(o, base, ns, k);
        LevelInTheEnd(o, base, m, k, fuel - 1);
      } else if forall h :: 0 <= h < |ns| ==> !Holds(ns, h) {
        LastAlone(o, base, ns, k);
      } else {
        LastRepaid(o, base, ns, k);
        assert Iterate(o, ns, k, fuel) == Iterate(o, m, k, fuel - 1);
        assert Iterate(o, m, k, fuel - 1) == Iterate(o, RedistributeOne(o, m, k), k, fuel - 2);
      }
    }
  }

  /**
    Water filling, even if the failed node steals while it is emptied: once the loop has ended, a node
    that got tasks is at most one task longer than any node that could have been chosen instead. It
    takes options without back-pressure stealing, or a failed node that does not steal.
   */
  lemma WaterFilledInTheEnd(o: Options, ns: seq<Node>, k: nat, fuel: nat, j: nat, i: nat)
    requires 0 < k < |ns| && !ns[k].ready && WorkConserving(o, ns)
    requires Failing(o, ns, k) || NoBackPressure(o)
    requires Iterate(o, ns, k, fuel)[k].queue == []
    requires j < |ns| && j != k && i < |ns| && Candidate(Iterate(o, ns, k, fuel), i)
    ensures var r := Iterate(o, ns, k, fuel);
      |r[j].queue| > |ns[j].queue| ==> |r[j].queue| <= |r[i].queue| + 1
  {
    hide Iterate;
    LevelInTheEnd(o, ns, ns, k, fuel);
    assert LevelAt(ns, Iterate(o, ns, k, fuel), j, i);
  }
}
