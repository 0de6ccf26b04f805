/**
  Exactly-once dispatch: whatever is stolen, redistributed or flushed, every accepted task is waiting
  at one node, in flight at one worker or settled, and never more than one of these.
 */
module ExactlyOnce {
  import opened WorkerNodes
  import opened Cascade
  import opened PoolMachine

  function Tasks(accepted: seq<Assignment>): seq<Task> {
    if accepted == [] then [] else Tasks(accepted[..|accepted| - 1]) + [accepted[|accepted| - 1].task]
  }

  ghost predicate DistinctIds(accepted: seq<Assignment>) {
    forall i, j :: 0 <= i < j < |accepted| ==> accepted[i].task.taskId != accepted[j].task.taskId
  }

  function Ids(ts: multiset<Task>): set<nat> {
    set t | t in ts :: t.taskId
  }

  /** Each node has sent what is still running and what was answered, in these amounts, over the whole pool. */
  ghost predicate Answers(ns: seq<Node>, answered: multiset<Task>) {
    Sum(ns, Sent) == Sum(ns, Running) + answered
  }

  ghost predicate Accounted(s: State) {
    && DistinctIds(s.accepted)
    && Sum(s.nodes, Live) + multiset(s.settled) == multiset(Tasks(s.accepted))
    && Answers(s.nodes, multiset(s.settled))
    && s.pending.Keys == Ids(Sum(s.nodes, Live))
    && forall id :: id in s.pending ==> s.pending[id] < |s.nodes|
  }

  // ---- How node changes move the sums ----

  lemma GrewSends(quota: nat, a: Node, b: Node)
    requires Grew(quota, a, b)
    ensures Sent(b) + Running(a) == Sent(a) + Running(b)
  {
    assert b.sent == a.sent + b.sent[|a.sent|..];
  }

  lemma AddPairs(a: multiset<Task>, b: multiset<Task>, c: multiset<Task>, d: multiset<Task>,
                 a': multiset<Task>, b': multiset<Task>, c': multiset<Task>, d': multiset<Task>)
    requires a + b == c + d && a' + b' == c' + d'
    ensures (a + a') + (b + b') == (c + c') + (d + d')
  {
    calc {
      (a + a') + (b + b');
      (a + b) + (a' + b');
      (c + d) + (c' + d');
      (c + c') + (d + d');
    }
  }

  lemma {:induction false} GrewAnswers(quota: nat, ns: seq<Node>, r: seq<Node>)
    requires AllGrew(quota, ns, r)
    ensures Sum(r, Sent) + Sum(ns, Running) == Sum(ns, Sent) + Sum(r, Running)
  {
    if ns != [] {
      var last := |ns| - 1;
      var ns', r' := ns[..last], r[..last];
      forall j | 0 <= j < last ensures Grew(quota, ns'[j], r'[j]) {
        assert Grew(quota, ns[j], r[j]);
      }
      GrewAnswers(quota, ns', r');
      assert Grew(quota, ns[last], r[last]);
      GrewSends(quota, ns[last], r[last]);
      AddPairs(Sum(r', Sent), Sum(ns', Running), Sum(ns', Sent), Sum(r', Running),
               Sent(r[last]), Running(ns[last]), Sent(ns[last]), Running(r[last]));
    }
  }

  lemma AnswersUpdate(ns: seq<Node>, k: nat, n: Node, answered: multiset<Task>, more: multiset<Task>)
    requires k < |ns| && Answers(ns, answered)
    requires Sent(n) + Running(ns[k]) == Sent(ns[k]) + Running(n) + more
    ensures Answers(ns[k := n], answered + more)
  {
    SumUpdate(ns, k, n, Sent);
    SumUpdate(ns, k, n, Running);
    var r := ns[k := n];
    var old' := Sent(ns[k]) + Running(ns[k]);
    calc {
      Sum(r, Sent) + old';
      (Sum(r, Sent) + Sent(ns[k])) + Running(ns[k]);
      (Sum(ns, Sent) + Sent(n)) + Running(ns[k]);
      Sum(ns, Running) + answered + (Sent(ns[k]) + Running(n) + more);
      (Sum(ns, Running) + Running(n)) + Sent(ns[k]) + (answered + more);
      (Sum(r, Running) + Running(ns[k])) + Sent(ns[k]) + (answered + more);
      (Sum(r, Running) + (answered + more)) + old';
    }
    Cancel(Sum(r, Sent), Sum(r, Running) + (answered + more), old');
  }

  lemma AnswersGrew(quota: nat, ns: seq<Node>, r: seq<Node>, answered: multiset<Task>)
    requires AllGrew(quota, ns, r) && Answers(ns, answered)
    ensures Answers(r, answered)
  {
    GrewAnswers(quota, ns, r);
    calc {
      Sum(r, Sent) + Sum(ns, Running);
      Sum(ns, Sent) + Sum(r, Running);
      (Sum(r, Running) + answered) + Sum(ns, Running);
    }
    Cancel(Sum(r, Sent), Sum(r, Running) + answered, Sum(ns, Running));
  }

  /** From ns to r the pool received the tasks `given`, kept every task it had, and nothing was answered. */
  ghost predicate Conserved(ns: seq<Node>, r: seq<Node>, given: multiset<Task>) {
    && |ns| <= |r|
    && Sum(r, Live) == Sum(ns, Live) + given
    && forall answered :: Answers(ns, answered) ==> Answers(r, answered)
  }

  lemma ConservedThen(a: seq<Node>, b: seq<Node>, c: seq<Node>, given: multiset<Task>)
    requires Conserved(a, b, given) && Conserved(b, c, multiset{})
    ensures Conserved(a, c, given)
  {
    assert Sum(b, Live) + multiset{} == Sum(b, Live);
  }

  lemma CascadedConserves(o: Options, ns: seq<Node>, r: seq<Node>, given: multiset<Task>)
    requires Cascaded(o, ns, r, given, multiset{})
    ensures Conserved(ns, r, given)
  {
    assert Sum(r, Live) + multiset{} == Sum(r, Live);
    forall answered | Answers(ns, answered) ensures Answers(r, answered) {
      AnswersGrew(o.concurrency, ns, r, answered);
    }
  }

  lemma UpdateConserves(ns: seq<Node>, k: nat, n: Node, given: multiset<Task>)
    requires k < |ns| && Live(n) == Live(ns[k]) + given
    requires Sent(n) + Running(ns[k]) == Sent(ns[k]) + Running(n)
    ensures Conserved(ns, ns[k := n], given)
  {
    LiveUpdate(ns, k, n, given, multiset{});
    assert Sum(ns[k := n], Live) + multiset{} == Sum(ns[k := n], Live);
    forall answered | Answers(ns, answered) ensures Answers(ns[k := n], answered) {
      AnswersUpdate(ns, k, n, answered, multiset{});
      assert answered + multiset{} == answered;
    }
  }

  lemma SendGap(n: Node, t: Task)
    ensures Live(Send(n, t)) == Live(n) + multiset{t}
    ensures Sent(Send(n, t)) + Running(n) == Sent(n) + Running(Send(n, t))
  {
  }

  lemma SubmitConserves(o: Options, ns: seq<Node>, k: nat, t: Task)
    requires k < |ns|
    ensures Conserved(ns, SubmitTask(o, ns, k, t), multiset{t})
  {
    if !o.enableTasksQueue {
      SendGap(ns[k], t);
      UpdateConserves(ns, k, Send(ns[k], t), multiset{t});
    } else {
      CascadedConserves(o, ns, PlaceTask(o, ns, k, t), multiset{t});
    }
  }

  /** What a cascade handed out is put back somewhere. */
  lemma MoveConserves(o: Options, a: seq<Node>, b: seq<Node>, c: seq<Node>, t: Task)
    requires Cascaded(o, a, b, multiset{}, multiset{t}) && Conserved(b, c, multiset{t})
    ensures Conserved(a, c, multiset{})
  {
    forall answered | Answers(a, answered) ensures Answers(c, answered) {
      AnswersGrew(o.concurrency, a, b, answered);
    }
    assert Sum(a, Live) + multiset{} == Sum(a, Live);
  }

  lemma DequeueAndExecuteConserves(o: Options, ns: seq<Node>, k: nat)
    requires k < |ns| && ns[k].queue != []
    ensures Conserved(ns, DequeueAndExecute(o, ns, k), multiset{})
  {
    var taken := DequeueTask(o, ns, k);
    var t := taken.task.value;
    SendGap(taken.nodes[k], t);
    UpdateConserves(taken.nodes, k, Send(taken.nodes[k], t), multiset{t});
    MoveConserves(o, ns, taken.nodes, ExecuteTask(taken.nodes, k, t), t);
  }

  lemma RedistributeConserves(o: Options, ns: seq<Node>, k: nat)
    requires k < |ns| && ns[k].queue != []
    ensures Conserved(ns, RedistributeOne(o, ns, k), multiset{})
  {
    var taken := DequeueTask(o, ns, k);
    var t := taken.task.value;
    var r := RedistributeOne(o, ns, k);
    CascadedConserves(o, taken.nodes, r, multiset{t});
    MoveConserves(o, ns, taken.nodes, r, t);
  }

  lemma AfterResponseConserves(o: Options, ns: seq<Node>, k: nat, failed: bool)
    requires k < |ns|
    ensures Conserved(ns, AfterResponse(o, ns, k, failed), multiset{})
  {
    var counted := ns[k := CountAnswer(ns[k], failed)];
    UpdateConserves(ns, k, counted[k], multiset{});
    if o.enableTasksQueue && counted[k].queue != [] && counted[k].executing < o.concurrency {
      DequeueAndExecuteConserves(o, counted, k);
      ConservedThen(ns, counted, AfterResponse(o, ns, k, failed), multiset{});
    }
  }

  lemma StealRoundConserves(o: Options, ns: seq<Node>, k: nat)
    requires k < |ns|
    ensures Conserved(ns, StealRound(o, ns, k), multiset{})
  {
    var started := ns[k := ns[k].(emptyQueueCount := ns[k].emptyQueueCount + 1)];
    UpdateConserves(ns, k, started[k], multiset{});
    if o.StealsOnEmptyQueue() {
      var stolen := TaskStealingOnEmptyQueue(o, started, k);
      CascadedConserves(o, started, stolen, multiset{});
      ConservedThen(ns, started, stolen, multiset{});
    }
  }

  lemma TickConserves(o: Options, ns: seq<Node>, k: nat)
    requires k < |ns|
    ensures Conserved(ns, StartOnEmptyQueue(o, ns, k), multiset{})
  {
    hide StealRound, Conserved;
    if ns[k].emptyQueueCount > 0 && (ns[k].executing > 0 || ns[k].queue != []) {
      UpdateConserves(ns, k, ns[k].(emptyQueueCount := 0), multiset{});
    } else {
      StealRoundConserves(o, ns, k);
      var stolen := StealRound(o, ns, k);
      UpdateConserves(stolen, k, stolen[k].(asleep := stolen[k].asleep + 1), multiset{});
      ConservedThen(ns, stolen, StartOnEmptyQueue(o, ns, k), multiset{});
    }
  }

  lemma AddNodeConserves(ns: seq<Node>, ready: bool)
    ensures Conserved(ns, ns + [NewNode(ready)], multiset{})
  {
    var r := ns + [NewNode(ready)];
    assert r[..|r| - 1] == ns;
    assert Sum(ns, Live) + Live(NewNode(ready)) == Sum(ns, Live);
  }

  // ---- The invariant over steps and runs ----

  lemma ConservedKeeps(s: State, r: State)
    requires Accounted(s) && Conserved(s.nodes, r.nodes, multiset{})
    requires r.pending == s.pending && r.accepted == s.accepted && r.settled == s.settled
    ensures Accounted(r)
  {
    assert Sum(r.nodes, Live) == Sum(s.nodes, Live);
  }

  lemma {:induction false} AcceptedAt(accepted: seq<Assignment>, t: Task)
    ensures t in multiset(Tasks(accepted)) <==> exists i :: 0 <= i < |accepted| && accepted[i].task == t
    ensures DistinctIds(accepted) ==> multiset(Tasks(accepted))[t] <= 1
  {
    if accepted != [] {
      var last := |accepted| - 1;
      var front := accepted[..last];
      AcceptedAt(front, t);
      assert t in multiset(Tasks(accepted)) <==> t in multiset(Tasks(front)) || accepted[last].task == t;
      LastOrBefore(accepted, t);
    }
  }

  lemma LastOrBefore(accepted: seq<Assignment>, t: Task)
    requires accepted != []
    ensures var last := |accepted| - 1;
      var before := exists i :: 0 <= i < last && accepted[..last][i].task == t;
      && ((exists i :: 0 <= i < |accepted| && accepted[i].task == t) <==> before || accepted[last].task == t)
      && (DistinctIds(accepted) ==> DistinctIds(accepted[..last]) && !(before && accepted[last].task == t))
  {
    var last := |accepted| - 1;
    if i :| 0 <= i < |accepted| && accepted[i].task == t {
      assert i < last ==> accepted[..last][i].task == t;
    }
    if i :| 0 <= i < last && accepted[..last][i].task == t {
      assert accepted[i].task == t;
    }
  }

  /** Two live tasks never share an id, and none is live twice. */
  lemma LiveOnce(s: State, t: Task, u: Task)
    requires Accounted(s) && t in Sum(s.nodes, Live)
    ensures Sum(s.nodes, Live)[t] == 1
    ensures u in multiset(Tasks(s.accepted)) && u.taskId == t.taskId ==> u == t
  {
    var all := multiset(Tasks(s.accepted));
    assert (Sum(s.nodes, Live) + multiset(s.settled))[t] == all[t];
    AcceptedAt(s.accepted, t);
    AcceptedAt(s.accepted, u);
  }

  lemma IdsAdd(ts: multiset<Task>, t: Task)
    ensures Ids(ts + multiset{t}) == Ids(ts) + {t.taskId}
  {
    assert t in ts + multiset{t};
    forall id | id in Ids(ts) ensures id in Ids(ts + multiset{t}) {
      var u :| u in ts && u.taskId == id;
      assert u in ts + multiset{t};
    }
  }

  lemma IdsRemove(ts: multiset<Task>, t: Task)
    requires forall u :: u in ts ==> u.taskId != t.taskId
    ensures Ids(ts) == Ids(ts + multiset{t}) - {t.taskId}
  {
    IdsAdd(ts, t);
  }

  lemma DistinctAppend(accepted: seq<Assignment>, a: Assignment)
    requires DistinctIds(accepted) && forall b :: b in accepted ==> b.task.taskId != a.task.taskId
    ensures DistinctIds(accepted + [a])
    ensures multiset(Tasks(accepted + [a])) == multiset(Tasks(accepted)) + multiset{a.task}
  {
    assert (accepted + [a])[..|accepted|] == accepted;
  }

  lemma SubmittedAccounted(s: State, ns: seq<Node>, a: Assignment)
    requires Accounted(s) && Conserved(s.nodes, ns, multiset{a.task}) && a.key < |ns|
    requires forall b :: b in s.accepted ==> b.task.taskId != a.task.taskId
    ensures Accounted(State(ns, s.pending[a.task.taskId := a.key], s.accepted + [a], s.settled))
  {
    hide Sum, Live, Tasks, Ids, DistinctIds;
    var live := Sum(s.nodes, Live);
    DistinctAppend(s.accepted, a);
    IdsAdd(live, a.task);
    assert (live + multiset{a.task}) + multiset(s.settled) == (live + multiset(s.settled)) + multiset{a.task};
  }

  lemma ExecuteAccounted(o: Options, s: State, k: nat, t: Task)
    requires Accounted(s) && Enabled(s, Execute(k, t))
    ensures Accounted(Step(o, s, Execute(k, t)))
  {
    SubmitConserves(o, s.nodes, k, t);
    SubmittedAccounted(s, SubmitTask(o, s.nodes, k, t), Assignment(k, t));
  }

  /** After its worker answered, a running task is live no more. */
  lemma AnsweredLive(s: State, k: nat, t: Task)
    requires Accounted(s) && k < |s.nodes| && t in s.nodes[k].running
    ensures var ns := s.nodes[k := Answered(s.nodes[k], t)];
      && Sum(s.nodes, Live) == Sum(ns, Live) + multiset{t}
      && Answers(ns, multiset(s.settled) + multiset{t})
  {
    hide Sum, Tasks, Ids, DistinctIds;
    var n := Answered(s.nodes[k], t);
    assert n.running + multiset{t} == s.nodes[k].running;
    LiveUpdate(s.nodes, k, n, multiset{}, multiset{t});
    assert Sum(s.nodes, Live) + multiset{} == Sum(s.nodes, Live);
    AnswersUpdate(s.nodes, k, n, multiset(s.settled), multiset{t});
  }

  lemma AnswerRunning(s: State, k: nat, t: Task)
    requires Accounted(s) && k < |s.nodes| && t in s.nodes[k].running
    ensures var ns := s.nodes[k := Answered(s.nodes[k], t)];
      && Sum(s.nodes, Live) == Sum(ns, Live) + multiset{t}
      && Answers(ns, multiset(s.settled) + multiset{t})
      && Ids(Sum(ns, Live)) == Ids(Sum(s.nodes, Live)) - {t.taskId}
    ensures t.taskId in s.pending
  {
    var live := Sum(s.nodes[k := Answered(s.nodes[k], t)], Live);
    AnsweredLive(s, k, t);
    assert t in Sum(s.nodes, Live);
    LiveOnce(s, t, t);
    forall u | u in live ensures u.taskId != t.taskId {
      assert u in live + multiset{t};
      assert u in Sum(s.nodes, Live) + multiset(s.settled);
      LiveOnce(s, t, u);
    }
    IdsRemove(live, t);
  }

  lemma ResponseAccounted(o: Options, s: State, k: nat, t: Task, failed: bool)
    requires Accounted(s) && Enabled(s, Response(k, t, failed))
    ensures Accounted(Step(o, s, Response(k, t, failed)))
    ensures Step(o, s, Response(k, t, failed)).settled == s.settled + [t]
  {
    hide Sum, Tasks, Ids, DistinctIds, AfterResponse;
    var r := Step(o, s, Response(k, t, failed));
    var ns := s.nodes[k := Answered(s.nodes[k], t)];
    AnswerRunning(s, k, t);
    var key := s.pending[t.taskId];
    AfterResponseConserves(o, ns, key, failed);
    assert r.nodes == AfterResponse(o, ns, key, failed);
    assert Sum(r.nodes, Live) == Sum(ns, Live);
    assert multiset(r.settled) == multiset(s.settled) + multiset{t};
    calc {
      Sum(r.nodes, Live) + multiset(r.settled);
      (Sum(ns, Live) + multiset{t}) + multiset(s.settled);
      multiset(Tasks(s.accepted));
    }
  }

  lemma StepAccounted(o: Options, s: State, e: Event)
    requires Accounted(s) && Enabled(s, e)
    ensures Accounted(Step(o, s, e))
  {
    match e
    case Execute(k, t) => ExecuteAccounted(o, s, k, t);
    case Response(k, t, failed) => ResponseAccounted(o, s, k, t, failed);
    case StrayResponse(_, _) =>
    case Tick(k) =>
      var awake := s.nodes[k := s.nodes[k].(asleep := s.nodes[k].asleep - 1)];
      UpdateConserves(s.nodes, k, awake[k], multiset{});
      TickConserves(o, awake, k);
      ConservedThen(s.nodes, awake, StartOnEmptyQueue(o, awake, k), multiset{});
      ConservedKeeps(s, Step(o, s, e));
    case Redistribute(k) =>
      RedistributeConserves(o, s.nodes, k);
      ConservedKeeps(s, Step(o, s, e));
    case Flush(k) =>
      DequeueAndExecuteConserves(o, s.nodes, k);
      ConservedKeeps(s, Step(o, s, e));
    case AddNode(ready) =>
      AddNodeConserves(s.nodes, ready);
      ConservedKeeps(s, Step(o, s, e));
    case SetReady(k, ready) =>
      UpdateConserves(s.nodes, k, s.nodes[k].(ready := ready), multiset{});
      ConservedKeeps(s, Step(o, s, e));
  }

  lemma {:induction false} InitSum(n: nat, f: Node -> multiset<Task>)
    requires f(NewNode(true)) == multiset{}
    ensures Sum(Init(n).nodes, f) == multiset{}
  {
    if n > 0 {
      InitSum(n - 1, f);
      assert Init(n).nodes[..n - 1] == Init(n - 1).nodes;
    }
  }

  lemma InitAccounted(n: nat)
    ensures Accounted(Init(n))
  {
    InitSum(n, Live);
    InitSum(n, Sent);
    InitSum(n, Running);
  }

  lemma {:induction false} RunAccounted(o: Options, n: nat, events: seq<Event>, r: State)
    requires Run(o, Init(n), events, r)
    ensures Accounted(r)
    decreases |events|
  {
    InitAccounted(n);
    if events != [] {
      var last := |events| - 1;
      var m :| Run(o, Init(n), events[..last], m) && Enabled(m, events[last]) && r == Step(o, m, events[last]);
      RunAccounted(o, n, events[..last], m);
      StepAccounted(o, m, events[last]);
    }
  }

  // ---- What the invariant means ----

  lemma {:induction false} InSumTwice(ns: seq<Node>, j: nat, k: nat, f: Node -> multiset<Task>, t: Task)
    requires j < |ns| && k < |ns| && j != k
    ensures f(ns[j])[t] + f(ns[k])[t] <= Sum(ns, f)[t]
  {
    var last := |ns| - 1;
    if k == last {
      InSum(ns[..last], j, f);
    } else if j == last {
      InSum(ns[..last], k, f);
    } else {
      InSumTwice(ns[..last], j, k, f, t);
    }
  }

  /** Task t waits in the queue of node k, or is in flight at its worker. */
  predicate LiveAt(s: State, t: Task, k: nat) {
    k < |s.nodes| && (t in s.nodes[k].queue || t in s.nodes[k].running)
  }

  lemma {:induction false} InSumSomewhere(ns: seq<Node>, t: Task) returns (k: nat)
    requires t in Sum(ns, Live)
    ensures k < |ns| && (t in ns[k].queue || t in ns[k].running)
  {
    var last := |ns| - 1;
    if t in ns[last].queue || t in ns[last].running {
      k := last;
    } else {
      k := InSumSomewhere(ns[..last], t);
    }
  }

  /** A task lives at one node only, in its queue or at its worker but not both, and only once. */
  lemma LiveAtOnce(s: State, t: Task, u: Task, j: nat, k: nat)
    requires Accounted(s) && LiveAt(s, t, j) && LiveAt(s, u, k) && t.taskId == u.taskId
    ensures t == u && j == k && Live(s.nodes[k])[t] == 1
  {
    InSum(s.nodes, j, Live);
    InSum(s.nodes, k, Live);
    assert t in Live(s.nodes[j]) && u in Live(s.nodes[k]);
    assert u in Sum(s.nodes, Live) + multiset(s.settled);
    LiveOnce(s, t, u);
    if j != k {
      InSumTwice(s.nodes, j, k, Live, t);
    }
  }

  /** What was ever sent is among the accepted tasks, so no task was sent twice. */
  lemma SentOnce(s: State, t: Task)
    requires Accounted(s)
    ensures Sum(s.nodes, Sent)[t] <= multiset(Tasks(s.accepted))[t] <= 1
  {
    AcceptedAt(s.accepted, t);
    RunningLive(s.nodes, t);
    assert Sum(s.nodes, Sent)[t] == Sum(s.nodes, Running)[t] + multiset(s.settled)[t];
    assert (Sum(s.nodes, Live) + multiset(s.settled))[t] == multiset(Tasks(s.accepted))[t];
  }

  lemma {:induction false} RunningLive(ns: seq<Node>, t: Task)
    ensures Sum(ns, Running)[t] <= Sum(ns, Live)[t]
  {
    if ns != [] {
      RunningLive(ns[..|ns| - 1], t);
    }
  }

  lemma MultisetTwice(ts: seq<Task>, i: nat, j: nat)
    requires i < j < |ts| && ts[i] == ts[j]
    ensures multiset(ts)[ts[i]] >= 2
  {
    assert ts == ts[..j] + [ts[j]] + ts[j + 1..];
    assert ts[..j][i] == ts[i];
    assert ts[i] in ts[..j];
  }

  /** Two entries of the dispatch logs with the same task id are one and the same entry. */
  lemma NeverSentTwice(s: State, j: nat, a: nat, k: nat, b: nat)
    requires Accounted(s) && j < |s.nodes| && k < |s.nodes| && a < |s.nodes[j].sent| && b < |s.nodes[k].sent|
    requires s.nodes[j].sent[a].taskId == s.nodes[k].sent[b].taskId
    ensures j == k && a == b
  {
    var t, u := s.nodes[j].sent[a], s.nodes[k].sent[b];
    InSum(s.nodes, j, Sent);
    InSum(s.nodes, k, Sent);
    SentOnce(s, t);
    SentOnce(s, u);
    assert t in Sent(s.nodes[j]) && u in Sent(s.nodes[k]);
    assert multiset(Tasks(s.accepted))[t] == 1 && multiset(Tasks(s.accepted))[u] == 1;
    AcceptedAt(s.accepted, t);
    AcceptedAt(s.accepted, u);
    assert t == u;
    if j != k {
      InSumTwice(s.nodes, j, k, Sent, t);
    } else if a < b {
      MultisetTwice(s.nodes[j].sent, a, b);
    } else if b < a {
      MultisetTwice(s.nodes[j].sent, b, a);
    }
  }

  /** An accepted task is either live, once, or settled, once. */
  lemma AcceptedOnce(s: State, t: Task)
    requires Accounted(s) && t in multiset(Tasks(s.accepted))
    ensures Sum(s.nodes, Live)[t] + multiset(s.settled)[t] == 1
  {
    AcceptedAt(s.accepted, t);
    assert (Sum(s.nodes, Live) + multiset(s.settled))[t] == multiset(Tasks(s.accepted))[t];
  }

  lemma SettledAccepted(s: State, i: nat)
    requires Accounted(s) && i < |s.settled|
    ensures s.settled[i] in multiset(Tasks(s.accepted))
    ensures Sum(s.nodes, Live)[s.settled[i]] == 0 && multiset(s.settled)[s.settled[i]] == 1
  {
    var t := s.settled[i];
    assert t in multiset(s.settled);
    assert t in Sum(s.nodes, Live) + multiset(s.settled);
    AcceptedOnce(s, t);
  }

  lemma SameIdSameTask(s: State, t: Task, u: Task)
    requires DistinctIds(s.accepted) && t.taskId == u.taskId
    requires t in multiset(Tasks(s.accepted)) && u in multiset(Tasks(s.accepted))
    ensures t == u
  {
    AcceptedAt(s.accepted, t);
    AcceptedAt(s.accepted, u);
  }

  /** A promise is settled at most once, and not while its task is pending. */
  lemma SettledOnce(s: State, i: nat, j: nat)
    requires Accounted(s) && i < |s.settled| && j < |s.settled|
    ensures s.settled[i].taskId == s.settled[j].taskId ==> i == j
    ensures s.settled[i].taskId !in s.pending
  {
    var t, u := s.settled[i], s.settled[j];
    SettledAccepted(s, i);
    SettledAccepted(s, j);
    if t.taskId == u.taskId {
      SameIdSameTask(s, t, u);
      if i < j {
        MultisetTwice(s.settled, i, j);
      } else if j < i {
        MultisetTwice(s.settled, j, i);
      }
    }
    if t.taskId in s.pending {
      var v :| v in Sum(s.nodes, Live) && v.taskId == t.taskId;
      assert v in Sum(s.nodes, Live) + multiset(s.settled);
      SameIdSameTask(s, t, v);
    }
  }

  /**
    In every reachable state, under any interleaving of submissions, responses, steal ticks,
    redistribution, flushing, worker creation and readiness changes: a task id is pending exactly
    when its task waits in some queue or is in flight at some worker; that place is unique; every
    accepted task is live or settled; no task was sent twice; and no promise was settled twice.
   */
  lemma ExactlyOnceDispatch(o: Options, n: nat, events: seq<Event>, r: State)
    requires Run(o, Init(n), events, r)
    ensures forall id :: id in r.pending <==> exists t, k: nat :: LiveAt(r, t, k) && t.taskId == id
    ensures forall t, u, j: nat, k: nat ::
      (LiveAt(r, t, j) && LiveAt(r, u, k) && t.taskId == u.taskId ==> t == u && j == k && Live(r.nodes[k])[t] == 1)
    ensures forall a :: a in r.accepted ==> (exists k: nat :: LiveAt(r, a.task, k)) != (a.task in r.settled)
    ensures forall j, a, k, b | SentAt(r, j, a) && SentAt(r, k, b) ::
      (r.nodes[j].sent[a].taskId == r.nodes[k].sent[b].taskId ==> j == k && a == b)
    ensures forall i, j :: 0 <= i < j < |r.settled| ==> r.settled[i].taskId != r.settled[j].taskId
  {
    RunAccounted(o, n, events, r);
    forall id ensures id in r.pending <==> exists t, k: nat :: LiveAt(r, t, k) && t.taskId == id {
      PendingIsLive(r, id);
    }
    forall t, u, j: nat, k: nat | LiveAt(r, t, j) && LiveAt(r, u, k) && t.taskId == u.taskId
      ensures t == u && j == k && Live(r.nodes[k])[t] == 1
    {
      LiveAtOnce(r, t, u, j, k);
    }
    forall a | a in r.accepted ensures (exists k: nat :: LiveAt(r, a.task, k)) != (a.task in r.settled) {
      LiveOrSettled(r, a);
    }
    forall j, a, k, b | SentAt(r, j, a) && SentAt(r, k, b) && r.nodes[j].sent[a].taskId == r.nodes[k].sent[b].taskId
      ensures j == k && a == b
    {
      NeverSentTwice(r, j, a, k, b);
    }
    forall i, j | 0 <= i < j < |r.settled| ensures r.settled[i].taskId != r.settled[j].taskId {
      SettledOnce(r, i, j);
    }
  }

  /** The a-th task sent to worker k exists. */
  predicate SentAt(s: State, k: int, a: int) {
    0 <= k < |s.nodes| && 0 <= a < |s.nodes[k].sent|
  }

  lemma PendingIsLive(s: State, id: nat)
    requires Accounted(s)
    ensures id in s.pending <==> exists t, k: nat :: LiveAt(s, t, k) && t.taskId == id
  {
    if id in s.pending {
      var t :| t in Sum(s.nodes, Live) && t.taskId == id;
      var k := InSumSomewhere(s.nodes, t);
      assert LiveAt(s, t, k);
    }
    if t, k: nat :| LiveAt(s, t, k) && t.taskId == id {
      LiveInSum(s, t, k);
    }
  }

  lemma LiveInSum(s: State, t: Task, k: nat)
    requires LiveAt(s, t, k)
    ensures t in Sum(s.nodes, Live)
  {
    InSum(s.nodes, k, Live);
    assert t in Live(s.nodes[k]);
  }

  lemma LiveOrSettled(s: State, a: Assignment)
    requires Accounted(s) && a in s.accepted
    ensures (exists k: nat :: LiveAt(s, a.task, k)) != (a.task in s.settled)
  {
    AcceptedAt(s.accepted, a.task);
    AcceptedOnce(s, a.task);
    assert a.task in s.settled <==> multiset(s.settled)[a.task] > 0;
    if k: nat :| LiveAt(s, a.task, k) {
      LiveInSum(s, a.task, k);
    } else if a.task in Sum(s.nodes, Live) {
      var k := InSumSomewhere(s.nodes, a.task);
      assert false by { assert LiveAt(s, a.task, k); }
    }
  }
}
