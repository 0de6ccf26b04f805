/**
  Flushing a worker's queue (flushTasksQueue), as done when the worker is destroyed, with stealing
  still switched on: each dequeued task goes to the worker, but emptying the queue may bring in
  tasks of other workers, and those are flushed as well.
 */
module Flush {
  import opened WorkerNodes
  import opened Cascade
  import opened PoolMachine
  import opened ExactlyOnce

  // ---- The total number of queued tasks ----

  lemma {:induction false} LiveCount(ns: seq<Node>)
    ensures |Sum(ns, Live)| == Total(ns, Queued) + |Sum(ns, Running)|
  {
    if ns != [] {
      var last := |ns| - 1;
      LiveCount(ns[..last]);
      assert |multiset(ns[last].queue)| == |ns[last].queue|;
    }
  }

  lemma {:induction false} RunningGrows(quota: nat, ns: seq<Node>, r: seq<Node>)
    requires AllGrew(quota, ns, r)
    ensures |Sum(ns, Running)| <= |Sum(r, Running)|
  {
    if ns != [] {
      var last := |ns| - 1;
      var ns', r' := ns[..last], r[..last];
      forall j | 0 <= j < last ensures Grew(quota, ns'[j], r'[j]) {
        assert Grew(quota, ns[j], r[j]);
      }
      RunningGrows(quota, ns', r');
      assert Grew(quota, ns[last], r[last]);
    }
  }

  /** A cascade that hands out one task leaves fewer tasks queued, whatever it moved meanwhile. */
  lemma TakenShrinks(o: Options, ns: seq<Node>, r: seq<Node>, t: Task)
    requires Cascaded(o, ns, r, multiset{}, multiset{t})
    ensures Total(r, Queued) < Total(ns, Queued)
  {
    LiveCount(ns);
    LiveCount(r);
    RunningGrows(o.concurrency, ns, r);
    assert |Sum(r, Live) + multiset{t}| == |Sum(ns, Live) + multiset{}|;
  }

  lemma FlushOneShrinks(o: Options, ns: seq<Node>, k: nat)
    requires k < |ns| && ns[k].queue != []
    ensures Total(DequeueAndExecute(o, ns, k), Queued) < Total(ns, Queued)
  {
    var taken := DequeueTask(o, ns, k);
    TakenShrinks(o, ns, taken.nodes, ns[k].queue[0]);
    TotalUpdate(taken.nodes, k, Send(taken.nodes[k], ns[k].queue[0]), Queued);
  }

  /** The whole flush: it ends, because every iteration leaves fewer tasks queued in the pool. */
  function FlushTasksQueue(o: Options, ns: seq<Node>, k: nat): (r: seq<Node>)
    requires k < |ns|
    ensures |r| == |ns| && r[k].queue == []
    decreases Total(ns, Queued)
  {
    if ns[k].queue == [] then ns
    else
      FlushOneShrinks(o, ns, k);
      FlushTasksQueue(o, DequeueAndExecute(o, ns, k), k)
  }

  lemma {:induction false} FlushConserves(o: Options, ns: seq<Node>, k: nat)
    requires k < |ns|
    ensures Conserved(ns, FlushTasksQueue(o, ns, k), multiset{})
    decreases Total(ns, Queued)
  {
    hide DequeueAndExecute;
    if ns[k].queue == [] {
      assert Sum(ns, Live) + multiset{} == Sum(ns, Live);
    } else {
      var next := DequeueAndExecute(o, ns, k);
      FlushOneShrinks(o, ns, k);
      DequeueAndExecuteConserves(o, ns, k);
      FlushConserves(o, next, k);
      ConservedThen(ns, next, FlushTasksQueue(o, ns, k), multiset{});
    }
  }

  /** What one iteration sends to worker k. */
  lemma FlushOneSends(o: Options, ns: seq<Node>, k: nat)
    requires k < |ns| && ns[k].queue != []
    ensures var r := DequeueAndExecute(o, ns, k);
      var q := ns[k].queue;
      && ns[k].sent < r[k].sent
      && q[0] in r[k].sent[|ns[k].sent|..]
      && (|q| > 1 ==> r[k].queue == q[1..] && r[k].sent == ns[k].sent + [q[0]])
  {
    var taken := DequeueTask(o, ns, k);
    var r := DequeueAndExecute(o, ns, k);
    assert Grew(o.concurrency, ns[k], taken.nodes[k]);
    assert r[k].sent == taken.nodes[k].sent + [ns[k].queue[0]];
    assert r[k].sent[|r[k].sent| - 1] == ns[k].queue[0];
    if |ns[k].queue| > 1 {
      var shifted := ns[k := ns[k].(queue := ns[k].queue[1..])];
      assert EmptiedQueue(o, shifted, k) == shifted;
    }
  }

  lemma {:induction false} FlushSendsMore(o: Options, ns: seq<Node>, k: nat)
    requires k < |ns|
    ensures ns[k].sent <= FlushTasksQueue(o, ns, k)[k].sent
    decreases Total(ns, Queued)
  {
    hide DequeueAndExecute;
    if ns[k].queue != [] {
      FlushOneShrinks(o, ns, k);
      FlushOneSends(o, ns, k);
      FlushSendsMore(o, DequeueAndExecute(o, ns, k), k);
    }
  }

  /**
    Flushing drops nothing of what the worker had queued: all its tasks but the last are sent to it
    next, in order, and the last one is sent to it too (tasks stolen when the queue ran empty may
    go before it). Other tasks of the pool stay queued or are sent, by FlushConserves.
   */
  lemma {:induction false} FlushSendsAll(o: Options, ns: seq<Node>, k: nat)
    requires k < |ns| && ns[k].queue != []
    ensures var r := FlushTasksQueue(o, ns, k)[k];
      var q := ns[k].queue;
      && ns[k].sent + q[..|q| - 1] <= r.sent
      && q[|q| - 1] in r.sent[|ns[k].sent + q[..|q| - 1]|..]
    decreases |ns[k].queue|
  {
    hide DequeueAndExecute;
    var next := DequeueAndExecute(o, ns, k);
    var q := ns[k].queue;
    FlushOneShrinks(o, ns, k);
    FlushOneSends(o, ns, k);
    if |q| > 1 {
      FlushSendsAll(o, next, k);
      assert next[k].sent + q[1..][..|q| - 2] == ns[k].sent + q[..|q| - 1];
    } else {
      FlushSendsMore(o, next, k);
      var i :| |ns[k].sent| <= i < |next[k].sent| && next[k].sent[i] == q[0];
      assert FlushTasksQueue(o, ns, k)[k].sent[i] == q[0];
      assert ns[k].sent + q[..0] == ns[k].sent;
    }
  }
}
