/**
  Task function operations sent by the pool to all its workers (sendTaskFunctionOperationToWorkers
  in src/pools/abstract-pool.ts, handleTaskFunctionOperationMessage in src/worker/abstract-worker.ts):
  replicas of one registry, fed from one log through first-in first-out channels.
 */
module Broadcast {
  import opened Wrappers
  import opened TaskFunctions

  /** A worker: its registry, the operations on their way to it, and the statuses on their way back. */
  datatype Replica = Replica(
    registry: Registry,
    inbox: seq<Operation>,
    outbox: seq<bool>,
    processed: nat,
    delivered: nat)

  /** The promise of one operation: the statuses received so far, and how it was settled. */
  datatype Listener = Listener(responsesReceived: seq<bool>, settled: Option<bool>)

  datatype State = State(log: seq<Operation>, replicas: seq<Replica>, listeners: seq<Listener>)

  datatype Event =
    | Send(op: Operation)
    | Process(key: nat)
    | Deliver(key: nat)

  function Init(registry: Registry, n: nat): State {
    State([], seq(n, _ => Replica(registry, [], [], 0, 0)), [])
  }

  /** A listener takes any status that arrives, and settles when it has as many as there are workers. */
  function Receive(l: Listener, n: nat, status: bool): Listener {
    var received := l.responsesReceived + [status];
    Listener(received, if |received| == n then Some(false !in received) else l.settled)
  }

  function ProcessNext(r: Replica): Replica
    requires r.inbox != []
  {
    var applied := Apply(r.registry, r.inbox[0]);
    Replica(applied.registry, r.inbox[1..], r.outbox + [applied.result.status], r.processed + 1, r.delivered)
  }

  predicate Enabled(s: State, e: Event) {
    match e
    case Send(_) => true
    case Process(k) => k < |s.replicas| && s.replicas[k].inbox != []
    case Deliver(k) => k < |s.replicas| && s.replicas[k].outbox != []
  }

  function Step(s: State, e: Event): State
    requires Enabled(s, e)
  {
    match e
    case Send(op) =>
      State(s.log + [op],
            seq(|s.replicas|, k requires 0 <= k < |s.replicas| => s.replicas[k].(inbox := s.replicas[k].inbox + [op])),
            s.listeners + [Listener([], None)])
    case Process(k) =>
      s.(replicas := s.replicas[k := ProcessNext(s.replicas[k])])
    case Deliver(k) =>
      var r := s.replicas[k];
      State(s.log,
            s.replicas[k := r.(outbox := r.outbox[1..], delivered := r.delivered + 1)],
            seq(|s.listeners|, i requires 0 <= i < |s.listeners| => Receive(s.listeners[i], |s.replicas|, r.outbox[0])))
  }

  ghost predicate Run(s: State, events: seq<Event>, r: State)
    decreases |events|
  {
    if events == [] then r == s
    else
      var last := |events| - 1;
      exists m :: Run(s, events[..last], m) && Enabled(m, events[last]) && r == Step(m, events[last])
  }

  // ---- The log ----

  function Fold(registry: Registry, log: seq<Operation>): Registry {
    if log == [] then registry
    else
      var last := |log| - 1;
      Apply(Fold(registry, log[..last]), log[last]).registry
  }

  /** The status of the i-th operation of the log, on any worker. */
  function Status(registry: Registry, log: seq<Operation>, i: nat): bool
    requires i < |log|
  {
    Apply(Fold(registry, log[..i]), log[i]).result.status
  }

  /** After any sequence of operations "default" stands for exactly one other name. */
  lemma {:induction false} FoldAliased(registry: Registry, log: seq<Operation>)
    requires Aliased(registry)
    ensures Aliased(Fold(registry, log))
    ensures forall i, j :: AliasAt(Fold(registry, log).entries, i) && AliasAt(Fold(registry, log).entries, j) ==> i == j
  {
    if log != [] {
      var last := |log| - 1;
      FoldAliased(registry, log[..last]);
      ApplyKeeps(Fold(registry, log[..last]), log[last]);
    }
    var r := Fold(registry, log);
    forall i, j | AliasAt(r.entries, i) && AliasAt(r.entries, j) ensures i == j {
      AliasUnique(r, i, j);
    }
  }

  lemma FoldNext(registry: Registry, log: seq<Operation>, i: nat)
    requires i < |log|
    ensures Fold(registry, log[..i + 1]) == Apply(Fold(registry, log[..i]), log[i]).registry
  {
    assert log[..i + 1][..i] == log[..i];
  }

  // ---- What the log says about a name ----

  /** "default" stands for the name: both have the same function. */
  predicate StandsFor(es: seq<Entry>, name: string) {
    name != DEFAULT_TASK_NAME && name in Names(es) && Get(es, name) == Get(es, DEFAULT_TASK_NAME)
  }

  lemma OnlyOneName(r: Registry, a: string, b: string)
    requires Aliased(r) && StandsFor(r.entries, a) && StandsFor(r.entries, b)
    ensures a == b
  {
    hide Get, Find;
    var i :| 0 <= i < |r.entries| && Names(r.entries)[i] == a;
    var j :| 0 <= j < |r.entries| && Names(r.entries)[j] == b;
    GetAt(r.entries, i);
    GetAt(r.entries, j);
    GetAt(r.entries, 0);
    AliasUnique(r, i, j);
  }

  /** The name in the last SetDefault that was accepted. */
  function LastDefault(registry: Registry, log: seq<Operation>, initial: string): string {
    if log == [] then initial
    else
      var last := |log| - 1;
      if log[last].SetDefault? && Status(registry, log, last) then log[last].name
      else LastDefault(registry, log[..last], initial)
  }

  /** After any operations "default" stands for the name that was made the default last. */
  lemma {:induction false} FoldDefault(registry: Registry, log: seq<Operation>, initial: string)
    requires Aliased(registry) && StandsFor(registry.entries, initial)
    ensures StandsFor(Fold(registry, log).entries, LastDefault(registry, log, initial))
  {
    hide Apply, Get;
    if log != [] {
      var last := |log| - 1;
      var before := Fold(registry, log[..last]);
      FoldAliased(registry, log[..last]);
      FoldDefault(registry, log[..last], initial);
      ApplyKeeps(before, log[last]);
      if Status(registry, log, last) {
        OperationKeepsDefault(before, log[last], LastDefault(registry, log[..last], initial));
      }
    }
  }

  lemma OperationKeepsDefault(r: Registry, op: Operation, name: string)
    requires Aliased(r) && StandsFor(r.entries, name) && Apply(r, op).result.status
    ensures StandsFor(Apply(r, op).registry.entries, if op.SetDefault? then op.name else name)
  {
    hide Get, Find, AddTaskFunction, RemoveTaskFunction, SetDefaultTaskFunction;
    var es := Apply(r, op).registry.entries;
    var stands := if op.SetDefault? then op.name else name;
    ListedIffFound(r.entries, stands);
    ListedIffFound(es, stands);
    match op
    case Add(_, value) =>
      AddBinds(r, op.name, value, stands);
      AddBinds(r, op.name, value, DEFAULT_TASK_NAME);
      if StandsFor(r.entries, op.name) {
        OnlyOneName(r, name, op.name);
      }
    case Remove(_) =>
      RemoveUnbinds(r, op.name, stands);
      RemoveUnbinds(r, op.name, DEFAULT_TASK_NAME);
    case SetDefault(_) =>
      SetDefaultBinds(r, op.name, stands);
      SetDefaultBinds(r, op.name, DEFAULT_TASK_NAME);
    case Unknown(_) =>
  }

  /** The code that name x was given last by an accepted Add, unless an accepted Remove took it away since. */
  function LastCode(registry: Registry, log: seq<Operation>, x: string): Option<string> {
    if log == [] then CodeOf(registry, x)
    else
      var last := |log| - 1;
      var before := LastCode(registry, log[..last], x);
      if log[last].name != x || !Status(registry, log, last) then before
      else
        match log[last]
        case Add(_, Function(code)) => Some(code)
        case Remove(_) => None
        case _ => before
  }

  function CodeOf(registry: Registry, x: string): Option<string> {
    var fn := Get(registry.entries, x);
    if fn.Some? then Some(fn.value.code) else None
  }

  /** After any operations every other name than "default" has the code that the log says, or none. */
  lemma {:induction false} FoldBinds(registry: Registry, log: seq<Operation>, x: string)
    requires Aliased(registry) && x != DEFAULT_TASK_NAME
    ensures CodeOf(Fold(registry, log), x) == LastCode(registry, log, x)
  {
    hide Get, Apply;
    if log != [] {
      var last := |log| - 1;
      var before, op := Fold(registry, log[..last]), log[last];
      FoldAliased(registry, log[..last]);
      FoldBinds(registry, log[..last], x);
      ApplyKeeps(before, op);
      if Status(registry, log, last) {
        match op
        case Add(_, value) => AddBinds(before, op.name, value, x);
        case Remove(_) => RemoveUnbinds(before, op.name, x);
        case SetDefault(_) => SetDefaultBinds(before, op.name, x);
        case Unknown(_) => UnknownRefused(before, op);
      }
    }
  }

  lemma UnknownRefused(r: Registry, op: Operation)
    requires op.Unknown?
    ensures !Apply(r, op).result.status
  {
  }

  // ---- Replication ----

  /** A replica has applied a prefix of the log, awaits the rest, and has yet to report some statuses. */
  ghost predicate InStep(registry: Registry, log: seq<Operation>, r: Replica) {
    && r.delivered <= r.processed <= |log|
    && r.registry == Fold(registry, log[..r.processed])
    && r.inbox == log[r.processed..]
    && |r.outbox| == r.processed - r.delivered
    && forall i :: r.delivered <= i < r.processed ==> r.outbox[i - r.delivered] == Status(registry, log, i)
  }

  ghost predicate Replicated(registry: Registry, s: State) {
    forall k {:trigger s.replicas[k]} :: 0 <= k < |s.replicas| ==> InStep(registry, s.log, s.replicas[k])
  }

  lemma StatusAppend(registry: Registry, log: seq<Operation>, op: Operation, i: nat)
    requires i < |log|
    ensures Status(registry, log + [op], i) == Status(registry, log, i)
  {
    assert (log + [op])[..i] == log[..i] && (log + [op])[i] == log[i];
  }

  lemma SendInStep(registry: Registry, log: seq<Operation>, r: Replica, op: Operation)
    requires InStep(registry, log, r)
    ensures InStep(registry, log + [op], r.(inbox := r.inbox + [op]))
  {
    assert (log + [op])[..r.processed] == log[..r.processed];
    forall i: nat | r.delivered <= i < r.processed
      ensures r.outbox[i - r.delivered] == Status(registry, log + [op], i)
    {
      StatusAppend(registry, log, op, i);
      assert r.outbox[i - r.delivered] == Status(registry, log, i);
    }
  }

  lemma ProcessInStep(registry: Registry, log: seq<Operation>, r: Replica)
    requires InStep(registry, log, r) && r.inbox != []
    ensures InStep(registry, log, ProcessNext(r))
  {
    hide Apply;
    hide Fold;
    var next := ProcessNext(r);
    FoldNext(registry, log, r.processed);
    assert r.inbox[0] == log[r.processed];
    forall i | next.delivered <= i < next.processed ensures next.outbox[i - next.delivered] == Status(registry, log, i) {
    }
  }

  lemma StepReplicated(registry: Registry, s: State, e: Event)
    requires Replicated(registry, s) && Enabled(s, e)
    ensures Replicated(registry, Step(s, e))
  {
    var r := Step(s, e);
    forall k | 0 <= k < |r.replicas| ensures InStep(registry, r.log, r.replicas[k]) {
      assert InStep(registry, s.log, s.replicas[k]);
      if e.Send? {
        SendInStep(registry, s.log, s.replicas[k], e.op);
      } else if e.Process? && k == e.key {
        ProcessInStep(registry, s.log, s.replicas[k]);
      }
    }
  }

  lemma {:induction false} RunReplicated(registry: Registry, n: nat, events: seq<Event>, r: State)
    requires Run(Init(registry, n), events, r)
    ensures Replicated(registry, r)
    decreases |events|
  {
    if events != [] {
      var last := |events| - 1;
      var m :| Run(Init(registry, n), events[..last], m) && Enabled(m, events[last]) && r == Step(m, events[last]);
      RunReplicated(registry, n, events[..last], m);
      StepReplicated(registry, m, events[last]);
    }
  }

  /**
    Each worker's registry is the result of a prefix of the log, so workers that have processed
    equally many operations have the same task functions under the same names.
   */
  lemma Agreement(registry: Registry, n: nat, events: seq<Event>, r: State, j: nat, k: nat)
    requires Run(Init(registry, n), events, r) && j < |r.replicas| && k < |r.replicas|
    ensures r.replicas[j].processed <= |r.log|
    ensures r.replicas[j].registry == Fold(registry, r.log[..r.replicas[j].processed])
    ensures r.replicas[j].processed == r.replicas[k].processed ==> r.replicas[j].registry == r.replicas[k].registry
  {
    RunReplicated(registry, n, events, r);
    assert InStep(registry, r.log, r.replicas[j]) && InStep(registry, r.log, r.replicas[k]);
  }

  // ---- One operation at a time ----

  /** The number of replicas that have reported the operation at position i. */
  function Reported(replicas: seq<Replica>, i: nat): nat {
    if replicas == [] then 0
    else
      var last := |replicas| - 1;
      Reported(replicas[..last], i) + if replicas[last].delivered > i then 1 else 0
  }

  lemma {:induction false} ReportedUpdate(replicas: seq<Replica>, k: nat, r: Replica, i: nat)
    requires k < |replicas|
    ensures Reported(replicas[k := r], i) + (if replicas[k].delivered > i then 1 else 0)
      == Reported(replicas, i) + if r.delivered > i then 1 else 0
    ensures Reported(replicas, i) <= |replicas|
  {
    var last := |replicas| - 1;
    if k == last {
      assert replicas[k := r][..last] == replicas[..last];
      ReportedBound(replicas[..last], i);
    } else {
      ReportedUpdate(replicas[..last], k, r, i);
      assert replicas[k := r][..last] == replicas[..last][k := r];
    }
  }

  lemma {:induction false} ReportedBound(replicas: seq<Replica>, i: nat)
    ensures Reported(replicas, i) <= |replicas|
    ensures Reported(replicas, i) == |replicas| <==> forall k :: 0 <= k < |replicas| ==> replicas[k].delivered > i
    ensures Reported(replicas, i) == 0 <==> forall k :: 0 <= k < |replicas| ==> replicas[k].delivered <= i
  {
    if replicas != [] {
      ReportedBound(replicas[..|replicas| - 1], i);
    }
  }

  /** The caller awaits each promise before the next operation. */
  ghost predicate Awaits(s: State, e: Event) {
    e.Send? ==> forall i :: 0 <= i < |s.listeners| ==> s.listeners[i].settled.Some?
  }

  ghost predicate AwaitingRun(s: State, events: seq<Event>, r: State)
    decreases |events|
  {
    if events == [] then r == s
    else
      var last := |events| - 1;
      exists m :: AwaitingRun(s, events[..last], m) && Enabled(m, events[last]) && Awaits(m, events[last])
        && r == Step(m, events[last])
  }

  /** The listener of the operation at position i has the status of that operation, from the replicas that reported it. */
  ghost predicate Tracks(registry: Registry, s: State, i: nat)
    requires i < |s.log| == |s.listeners|
  {
    var l := s.listeners[i];
    && |l.responsesReceived| == Reported(s.replicas, i)
    && (forall j :: 0 <= j < |l.responsesReceived| ==> l.responsesReceived[j] == Status(registry, s.log, i))
    && l.settled == if Reported(s.replicas, i) == |s.replicas| then Some(Status(registry, s.log, i)) else None
  }

  /** An earlier listener was settled by its own operation; whatever it receives since then is ignored. */
  ghost predicate Done(registry: Registry, s: State, i: nat)
    requires i < |s.log| == |s.listeners|
  {
    var l := s.listeners[i];
    && |l.responsesReceived| >= |s.replicas|
    && l.settled == Some(Status(registry, s.log, i))
    && forall k :: 0 <= k < |s.replicas| ==> s.replicas[k].delivered > i
  }

  ghost predicate Orderly(registry: Registry, s: State) {
    && Replicated(registry, s)
    && 0 < |s.replicas|
    && |s.log| == |s.listeners|
    && (s.log == [] ==> forall k :: 0 <= k < |s.replicas| ==> s.replicas[k].delivered == 0)
    && (s.log != [] ==> Tracks(registry, s, |s.log| - 1))
    && (forall i {:trigger s.listeners[i]} :: 0 <= i < |s.log| - 1 ==> Done(registry, s, i))
  }

  /** When an operation is sent, every replica has reported every operation before it. */
  lemma AllDelivered(registry: Registry, s: State, op: Operation, k: nat)
    requires Orderly(registry, s) && Awaits(s, Send(op)) && k < |s.replicas|
    ensures s.replicas[k].delivered == |s.log|
  {
    hide Status;
    hide Fold;
    assert InStep(registry, s.log, s.replicas[k]);
    if s.log != [] {
      ReportedBound(s.replicas, |s.log| - 1);
      assert s.listeners[|s.log| - 1].settled.Some?;
    }
  }

  lemma SendTracks(registry: Registry, s: State, op: Operation)
    requires Orderly(registry, s) && Awaits(s, Send(op))
    ensures Tracks(registry, Step(s, Send(op)), |s.log|)
  {
    var r := Step(s, Send(op));
    ReportedBound(r.replicas, |s.log|);
    forall k | 0 <= k < |r.replicas| ensures r.replicas[k].delivered == |s.log| {
      AllDelivered(registry, s, op, k);
    }
  }

  lemma SendOrderly(registry: Registry, s: State, op: Operation)
    requires Orderly(registry, s) && Awaits(s, Send(op))
    ensures Orderly(registry, Step(s, Send(op)))
  {
    hide Tracks;
    hide InStep;
    var r := Step(s, Send(op));
    StepReplicated(registry, s, Send(op));
    SendTracks(registry, s, op);
    forall i | 0 <= i < |r.log| - 1 ensures Done(registry, r, i) {
      SentKeepsDone(registry, s, op, i);
    }
  }

  lemma SentKeepsDone(registry: Registry, s: State, op: Operation, i: nat)
    requires Orderly(registry, s) && Awaits(s, Send(op)) && i < |s.log|
    ensures Done(registry, Step(s, Send(op)), i)
  {
    hide Status;
    StatusAppend(registry, s.log, op, i);
    var r := Step(s, Send(op));
    assert r.listeners[i] == s.listeners[i];
    if i < |s.log| - 1 {
      assert Done(registry, s, i);
    } else {
      ReportedBound(s.replicas, i);
      assert s.listeners[i].settled.Some?;
    }
  }

  lemma DeliverLast(registry: Registry, s: State, k: nat)
    requires Orderly(registry, s) && Enabled(s, Deliver(k))
    ensures s.log != [] && s.replicas[k].delivered == |s.log| - 1
    ensures s.replicas[k].outbox[0] == Status(registry, s.log, |s.log| - 1)
  {
    assert InStep(registry, s.log, s.replicas[k]);
    if |s.log| > 1 {
      assert Done(registry, s, |s.log| - 2);
    }
  }

  lemma DeliverTracks(registry: Registry, s: State, k: nat)
    requires Orderly(registry, s) && Enabled(s, Deliver(k))
    ensures s.log != [] && Tracks(registry, Step(s, Deliver(k)), |s.log| - 1)
  {
    DeliverLast(registry, s, k);
    var i := |s.log| - 1;
    var r := Step(s, Deliver(k));
    ReportedUpdate(s.replicas, k, r.replicas[k], i);
    ReportedUpdate(r.replicas, k, r.replicas[k], i);
    var status := Status(registry, s.log, i);
    var l, l' := s.listeners[i], r.listeners[i];
    assert l' == Receive(l, |s.replicas|, status);
    assert l'.responsesReceived[|l.responsesReceived|] == status;
    assert false in l'.responsesReceived <==> !status;
  }

  lemma DeliverOrderly(registry: Registry, s: State, k: nat)
    requires Orderly(registry, s) && Enabled(s, Deliver(k))
    ensures Orderly(registry, Step(s, Deliver(k)))
  {
    StepReplicated(registry, s, Deliver(k));
    DeliverTracks(registry, s, k);
    var r := Step(s, Deliver(k));
    forall i | 0 <= i < |r.log| - 1 ensures Done(registry, r, i) {
      assert Done(registry, s, i);
      assert r.listeners[i].settled == s.listeners[i].settled;
    }
  }

  lemma ProcessTracks(registry: Registry, s: State, k: nat, i: nat)
    requires Orderly(registry, s) && Enabled(s, Process(k)) && i < |s.log|
    ensures i == |s.log| - 1 ==> Tracks(registry, Step(s, Process(k)), i)
    ensures i < |s.log| - 1 ==> Done(registry, Step(s, Process(k)), i)
  {
    hide Status;
    hide Apply;
    hide InStep;
    ReportedUpdate(s.replicas, k, ProcessNext(s.replicas[k]), i);
    assert i < |s.log| - 1 ==> Done(registry, s, i);
  }

  lemma ProcessOrderly(registry: Registry, s: State, k: nat)
    requires Orderly(registry, s) && Enabled(s, Process(k))
    ensures Orderly(registry, Step(s, Process(k)))
  {
    hide Tracks;
    hide Done;
    hide InStep;
    hide Apply;
    StepReplicated(registry, s, Process(k));
    var r := Step(s, Process(k));
    if s.log != [] {
      ProcessTracks(registry, s, k, |s.log| - 1);
    }
    forall i | 0 <= i < |r.log| - 1 ensures Done(registry, r, i) {
      ProcessTracks(registry, s, k, i);
    }
  }

  lemma {:induction false} RunOrderly(registry: Registry, n: nat, events: seq<Event>, r: State)
    requires 0 < n && AwaitingRun(Init(registry, n), events, r)
    ensures Orderly(registry, r)
    decreases |events|
  {
    if events != [] {
      var last := |events| - 1;
      var e := events[last];
      var m :| AwaitingRun(Init(registry, n), events[..last], m) && Enabled(m, e) && Awaits(m, e) && r == Step(m, e);
      RunOrderly(registry, n, events[..last], m);
      match e
      case Send(op) => SendOrderly(registry, m, op);
      case Process(k) => ProcessOrderly(registry, m, k);
      case Deliver(k) => DeliverOrderly(registry, m, k);
    }
  }

  /**
    With one outstanding operation at a time, a promise is resolved only when every worker has
    applied the operation, and rejected only when every worker has refused it and none changed.
   */
  lemma AllOrNone(registry: Registry, n: nat, events: seq<Event>, r: State, i: nat)
    requires 0 < n && Aliased(registry) && AwaitingRun(Init(registry, n), events, r)
    requires i < |r.listeners| && r.listeners[i].settled.Some?
    ensures i < |r.log| && forall k :: 0 <= k < |r.replicas| ==> r.replicas[k].processed > i
    ensures r.listeners[i].settled.value == Status(registry, r.log, i)
    ensures !r.listeners[i].settled.value ==> Fold(registry, r.log[..i + 1]) == Fold(registry, r.log[..i])
  {
    RunOrderly(registry, n, events, r);
    ReportedBound(r.replicas, i);
    assert i < |r.log| - 1 ==> Done(registry, r, i);
    forall k | 0 <= k < |r.replicas| ensures r.replicas[k].processed > i {
      assert InStep(registry, r.log, r.replicas[k]);
    }
    FoldAliased(registry, r.log[..i]);
    ApplyKeeps(Fold(registry, r.log[..i]), r.log[i]);
    FoldNext(registry, r.log, i);
  }

  // ---- Exactly when promises can be relied on ----

  /** A promise settles only when every worker has processed its operation. */
  ghost predicate PromisesKept(s: State) {
    forall i :: 0 <= i < |s.listeners| && s.listeners[i].settled.Some? ==>
      forall k :: 0 <= k < |s.replicas| ==> s.replicas[k].processed > i
  }

  predicate NoSends(events: seq<Event>) {
    forall e :: e in events ==> !e.Send?
  }

  /** r is reached from s without further operations being sent. */
  ghost predicate Continues(s: State, r: State) {
    exists events :: NoSends(events) && Run(s, events, r)
  }

  lemma ContinuesThen(s: State, m: State, e: Event)
    requires Continues(s, m) && Enabled(m, e) && !e.Send?
    ensures Continues(s, Step(m, e))
  {
    hide Step, Enabled;
    var events :| NoSends(events) && Run(s, events, m);
    assert (events + [e])[..|events|] == events;
    assert Run(s, events + [e], Step(m, e)) && NoSends(events + [e]);
  }

  lemma ContinuesFromItself(s: State)
    ensures Continues(s, s)
  {
    assert Run(s, [], s) && NoSends([]);
  }

  lemma OrderlyKeeps(registry: Registry, s: State)
    requires Orderly(registry, s)
    ensures PromisesKept(s)
  {
    hide Status, Fold;
    forall i, k | 0 <= i < |s.listeners| && s.listeners[i].settled.Some? && 0 <= k < |s.replicas|
      ensures s.replicas[k].processed > i
    {
      ReportedBound(s.replicas, i);
      assert i < |s.log| - 1 ==> Done(registry, s, i);
      assert InStep(registry, s.log, s.replicas[k]);
    }
  }

  /** The state after a Deliver, as far as counting statuses goes. */
  ghost predicate OneDelivered(s: State, r: State, k: nat) {
    && r.log == s.log && |r.replicas| == |s.replicas| && |r.listeners| == |s.listeners|
    && k < |s.replicas|
    && r.replicas[k].delivered == s.replicas[k].delivered + 1
    && r.replicas[k].processed == Larger(s.replicas[k].processed, s.replicas[k].delivered + 1)
    && (forall j :: 0 <= j < |s.replicas| && j != k ==> r.replicas[j] == s.replicas[j])
    && forall i :: 0 <= i < |s.listeners| ==>
      && |r.listeners[i].responsesReceived| == |s.listeners[i].responsesReceived| + 1
      && (|r.listeners[i].responsesReceived| == |s.replicas| ==> r.listeners[i].settled.Some?)
  }

  function Larger(a: nat, b: nat): nat {
    if a < b then b else a
  }

  /** Worker k delivers its next status, which it may have to find out first. */
  lemma DeliverNext(registry: Registry, start: State, s: State, k: nat) returns (r: State)
    requires Continues(start, s) && Replicated(registry, s) && k < |s.replicas| && s.replicas[k].delivered < |s.log|
    ensures Continues(start, r) && Replicated(registry, r) && OneDelivered(s, r, k)
  {
    hide Status, Fold, Apply, Continues, Replicated;
    assert InStep(registry, s.log, s.replicas[k]) by { InStepAt(registry, s, k); }
    var ready := s;
    if s.replicas[k].outbox == [] {
      ContinuesThen(start, s, Process(k));
      StepReplicated(registry, s, Process(k));
      ready := Step(s, Process(k));
    }
    ContinuesThen(start, ready, Deliver(k));
    StepReplicated(registry, ready, Deliver(k));
    r := Step(ready, Deliver(k));
  }

  lemma InStepAt(registry: Registry, s: State, k: nat)
    requires Replicated(registry, s) && k < |s.replicas|
    ensures InStep(registry, s.log, s.replicas[k])
  {
  }

  /** Each of the first j workers delivers one more status. */
  lemma {:induction false} DeliverEach(registry: Registry, s: State, j: nat) returns (r: State)
    requires Replicated(registry, s) && j <= |s.replicas|
    requires forall k :: 0 <= k < |s.replicas| ==> s.replicas[k].delivered < |s.log|
    ensures Continues(s, r) && Replicated(registry, r)
    ensures r.log == s.log && |r.replicas| == |s.replicas| && |r.listeners| == |s.listeners|
    ensures forall k :: 0 <= k < |s.replicas| ==>
      if k < j then r.replicas[k].processed == Larger(s.replicas[k].processed, s.replicas[k].delivered + 1)
      else r.replicas[k] == s.replicas[k]
    ensures forall i :: 0 <= i < |s.listeners| ==>
      && |r.listeners[i].responsesReceived| == |s.listeners[i].responsesReceived| + j
      && (0 < j && |r.listeners[i].responsesReceived| == |s.replicas| ==> r.listeners[i].settled.Some?)
  {
    hide Continues, Replicated;
    if j == 0 {
      ContinuesFromItself(s);
      r := s;
    } else {
      var before := DeliverEach(registry, s, j - 1);
      r := DeliverNext(registry, s, before, j - 1);
    }
  }

  /** An open promise is that of the last operation, and some worker has not delivered its status. */
  lemma LateWorker(registry: Registry, s: State, open: nat) returns (late: nat)
    requires Orderly(registry, s) && open < |s.listeners| && s.listeners[open].settled.None?
    ensures open == |s.log| - 1 && late < |s.replicas| && s.replicas[late].delivered <= open
  {
    hide Status, Replicated;
    assert open == |s.log| - 1;
    ReportedBound(s.replicas, open);
    late :| late < |s.replicas| && s.replicas[late].delivered <= open;
  }

  lemma AfterSend(registry: Registry, s: State, op: Operation)
    requires Replicated(registry, s)
    ensures var t := Step(s, Send(op));
      && Replicated(registry, t) && t.log == s.log + [op] && |t.replicas| == |s.replicas|
      && forall k :: 0 <= k < |s.replicas| ==>
        t.replicas[k].delivered == s.replicas[k].delivered <= t.replicas[k].processed <= |s.log|
  {
    hide Status, Fold, Apply;
    StepReplicated(registry, s, Send(op));
    forall k | 0 <= k < |s.replicas| ensures s.replicas[k].delivered <= s.replicas[k].processed <= |s.log| {
      InStepAt(registry, s, k);
    }
  }

  /**
    An operation is sent while the promise of the one before is still open: if then every worker
    delivers one more status, the new promise settles, although a worker that had not delivered the
    status of the operation before has not processed the new one.
   */
  lemma UnawaitedBreaks(registry: Registry, s: State, op: Operation) returns (r: State)
    requires Orderly(registry, s) && !Awaits(s, Send(op))
    ensures Continues(Step(s, Send(op)), r) && !PromisesKept(r)
  {
    hide Status, Fold, Apply, Continues, Replicated, Tracks, Done;
    var t, last := Step(s, Send(op)), |s.log|;
    var open: nat :| open < |s.listeners| && s.listeners[open].settled.None?;
    var late := LateWorker(registry, s, open);
    AfterSend(registry, s, op);
    r := DeliverEach(registry, t, |t.replicas|);
    assert r.listeners[last].settled.Some? && r.replicas[late].processed <= last;
  }

  lemma {:induction false} RunIsUnique(s: State, events: seq<Event>, a: State, b: State)
    requires Run(s, events, a) && Run(s, events, b)
    ensures a == b
    decreases |events|
  {
    hide Step, Enabled;
    if events != [] {
      var last := |events| - 1;
      var m :| Run(s, events[..last], m) && Enabled(m, events[last]) && a == Step(m, events[last]);
      var n :| Run(s, events[..last], n) && Enabled(n, events[last]) && b == Step(n, events[last]);
      RunIsUnique(s, events[..last], m, n);
    }
  }

  lemma {:induction false} AwaitingIsRun(s: State, events: seq<Event>, r: State)
    requires AwaitingRun(s, events, r)
    ensures Run(s, events, r)
    decreases |events|
  {
    hide Step, Enabled, Awaits;
    if events != [] {
      var last := |events| - 1;
      var m :| AwaitingRun(s, events[..last], m) && Enabled(m, events[last]) && Awaits(m, events[last])
        && r == Step(m, events[last]);
      AwaitingIsRun(s, events[..last], m);
    }
  }

  lemma {:induction false} AwaitingPrefix(s: State, events: seq<Event>, r: State, i: nat, m: State)
    requires AwaitingRun(s, events, r) && i <= |events| && Run(s, events[..i], m)
    ensures AwaitingRun(s, events[..i], m)
    decreases |events|
  {
    hide Step, Enabled, Awaits;
    if i == |events| {
      assert events[..i] == events;
      AwaitingIsRun(s, events, r);
      RunIsUnique(s, events, r, m);
    } else {
      var last := |events| - 1;
      var before :| AwaitingRun(s, events[..last], before) && Enabled(before, events[last])
        && Awaits(before, events[last]) && r == Step(before, events[last]);
      assert events[..last][..i] == events[..i];
      AwaitingPrefix(s, events[..last], before, i, m);
    }
  }

  lemma {:induction false} AwaitingContinues(s: State, events: seq<Event>, m: State, rest: seq<Event>, r: State)
    requires AwaitingRun(s, events, m) && NoSends(rest) && Run(m, rest, r)
    ensures AwaitingRun(s, events + rest, r)
    decreases |rest|
  {
    hide Step, Enabled;
    if rest == [] {
      assert events + rest == events;
    } else {
      var last := |rest| - 1;
      var before :| Run(m, rest[..last], before) && Enabled(before, rest[last]) && r == Step(before, rest[last]);
      AwaitingContinues(s, events, m, rest[..last], before);
      AwaitingThen(s, events + rest[..last], before, rest[last]);
      assert events + rest[..last] + [rest[last]] == events + rest;
    }
  }

  lemma AwaitingThen(s: State, events: seq<Event>, m: State, e: Event)
    requires AwaitingRun(s, events, m) && Enabled(m, e) && Awaits(m, e)
    ensures AwaitingRun(s, events + [e], Step(m, e))
  {
    hide Step, Enabled;
    assert (events + [e])[..|events|] == events;
  }

  /** However the run goes on from any point of it without further operations, promises are kept. */
  ghost predicate Reliable(s: State, events: seq<Event>) {
    forall i, m, r :: 0 <= i <= |events| && Run(s, events[..i], m) && Continues(m, r) ==> PromisesKept(r)
  }

  lemma {:induction false} UnawaitedIsUnreliable(registry: Registry, n: nat, events: seq<Event>, s: State)
    requires 0 < n && Run(Init(registry, n), events, s) && !AwaitingRun(Init(registry, n), events, s)
    ensures !Reliable(Init(registry, n), events)
    decreases |events|
  {
    hide Step, Enabled, Awaits, Continues, PromisesKept, Orderly;
    var init := Init(registry, n);
    var last := |events| - 1;
    var m :| Run(init, events[..last], m) && Enabled(m, events[last]) && s == Step(m, events[last]);
    if AwaitingRun(init, events[..last], m) {
      RunOrderly(registry, n, events[..last], m);
      OnlySendsAreAwaited(m, events[last]);
      var r := UnawaitedBreaks(registry, m, events[last].op);
      assert events[..|events|] == events;
    } else {
      UnawaitedIsUnreliable(registry, n, events[..last], m);
      var i, k, r :| 0 <= i <= last && Run(init, events[..last][..i], k) && Continues(k, r) && !PromisesKept(r);
      assert events[..last][..i] == events[..i];
    }
  }

  lemma OnlySendsAreAwaited(s: State, e: Event)
    requires !Awaits(s, e)
    ensures e.Send? && e == Send(e.op)
  {
  }

  /**
    Promises can be relied on, wherever the run is interrupted and whatever order the remaining
    messages arrive in, if and only if each operation was sent after all promises before it had settled.
   */
  lemma OneAtATimeExactly(registry: Registry, n: nat, events: seq<Event>, s: State)
    requires 0 < n && Run(Init(registry, n), events, s)
    ensures AwaitingRun(Init(registry, n), events, s) <==> Reliable(Init(registry, n), events)
  {
    hide Run, AwaitingRun, Orderly, PromisesKept;
    var init := Init(registry, n);
    if AwaitingRun(init, events, s) {
      forall i, m, r | 0 <= i <= |events| && Run(init, events[..i], m) && Continues(m, r) ensures PromisesKept(r) {
        AwaitingPrefix(init, events, s, i, m);
        var rest :| NoSends(rest) && Run(m, rest, r);
        AwaitingContinues(init, events[..i], m, rest, r);
        RunOrderly(registry, n, events[..i] + rest, r);
        OrderlyKeeps(registry, r);
      }
    } else {
      UnawaitedIsUnreliable(registry, n, events, s);
    }
  }

  // ---- Operations that are not awaited ----

  ghost predicate Follows(events: seq<Event>, states: seq<State>) {
    && |states| == |events| + 1
    && forall i :: 0 <= i < |events| ==> Enabled(states[i], events[i]) && states[i + 1] == Step(states[i], events[i])
  }

  lemma {:induction false} FollowsRun(events: seq<Event>, states: seq<State>)
    requires Follows(events, states)
    ensures Run(states[0], events, states[|events|])
    decreases |events|
  {
    hide Enabled;
    hide Step;
    if events != [] {
      var last := |events| - 1;
      FollowsRun(events[..last], states[..last + 1]);
    }
  }

  /** Two operations in flight at two workers, the first of which answers both before the second answers any. */
  function Overlapping(a: Operation, b: Operation): seq<Event> {
    [Send(a), Send(b), Process(0), Process(0), Deliver(0), Deliver(0)]
  }

  /** Worker 0 after n of the two operations, with its statuses on their way. */
  function Ahead(registry: Registry, a: Operation, b: Operation): Replica {
    ProcessNext(ProcessNext(Replica(registry, [a, b], [], 0, 0)))
  }

  function Behind(registry: Registry, a: Operation, b: Operation): Replica {
    Replica(registry, [a, b], [], 0, 0)
  }

  lemma StatusesAhead(registry: Registry, a: Operation, b: Operation)
    ensures Ahead(registry, a, b).outbox == [Status(registry, [a, b], 0), Status(registry, [a, b], 1)]
    ensures Ahead(registry, a, b).delivered == 0
  {
    assert [a, b][..0] == [] && [a, b][..1] == [a] && [a][..0] == [];
  }

  function BothSent(registry: Registry, a: Operation, b: Operation): State {
    State([a, b], [Behind(registry, a, b), Behind(registry, a, b)], [Listener([], None), Listener([], None)])
  }

  function BothProcessed(registry: Registry, a: Operation, b: Operation): State {
    State([a, b], [Ahead(registry, a, b), Behind(registry, a, b)], [Listener([], None), Listener([], None)])
  }

  function BothDelivered(registry: Registry, a: Operation, b: Operation): State {
    var mixed := Listener([true, false], Some(false));
    State([a, b],
          [Ahead(registry, a, b).(outbox := [], delivered := 2), Behind(registry, a, b)],
          [mixed, mixed])
  }

  lemma Sending(registry: Registry, a: Operation, b: Operation) returns (m: State)
    ensures Follows([Send(a), Send(b)], [Init(registry, 2), m, BothSent(registry, a, b)])
  {
    hide Apply;
    m := Step(Init(registry, 2), Send(a));
    assert m.log == [a] && [a] + [b] == [a, b];
    assert Step(m, Send(b)) == BothSent(registry, a, b);
  }

  lemma Processing(registry: Registry, a: Operation, b: Operation) returns (m: State)
    ensures Follows([Process(0), Process(0)], [BothSent(registry, a, b), m, BothProcessed(registry, a, b)])
  {
    hide Apply;
    m := Step(BothSent(registry, a, b), Process(0));
    assert Step(m, Process(0)) == BothProcessed(registry, a, b);
  }

  lemma Delivering(registry: Registry, a: Operation, b: Operation) returns (m: State)
    requires Status(registry, [a, b], 0) && !Status(registry, [a, b], 1)
    ensures Follows([Deliver(0), Deliver(0)], [BothProcessed(registry, a, b), m, BothDelivered(registry, a, b)])
  {
    StatusesAhead(registry, a, b);
    hide Status;
    hide Apply;
    assert Ahead(registry, a, b).outbox == [true, false];
    m := Step(BothProcessed(registry, a, b), Deliver(0));
    assert Receive(Listener([], None), 2, true) == Listener([true], None) by {
      assert [] + [true] == [true];
    }
    assert m.replicas[0].outbox == [false];
    assert m.listeners == [Listener([true], None), Listener([true], None)];
    assert Receive(Listener([true], None), 2, false) == Listener([true, false], Some(false)) by {
      assert [true] + [false] == [true, false];
    }
    assert Step(m, Deliver(0)).listeners == BothDelivered(registry, a, b).listeners;
    var h := Ahead(registry, a, b);
    assert m.replicas[0] == Replica(h.registry, h.inbox, [false], h.processed, 1);
    assert Step(m, Deliver(0)).replicas[0] == Replica(h.registry, h.inbox, [], h.processed, 2);
    assert Step(m, Deliver(0)).replicas == BothDelivered(registry, a, b).replicas;
    assert Step(m, Deliver(0)) == BothDelivered(registry, a, b);
  }

  /**
    Statuses carry no mark of the operation they belong to. Of two operations that are not awaited
    one by one, the promise of the first is rejected although it succeeds on every worker, if the
    second fails: both listeners take the two statuses of worker 0 for those of the two workers.
   */
  lemma OverlappingOperationsMix(registry: Registry, a: Operation, b: Operation)
    requires Status(registry, [a, b], 0) && !Status(registry, [a, b], 1)
    ensures exists r ::
      (Run(Init(registry, 2), Overlapping(a, b), r) && |r.listeners| == |r.replicas| == 2
       && r.listeners[0].settled == Some(false) && r.listeners[1].settled == Some(false)
       && r.replicas[1].processed == 0)
  {
    hide Status;
    hide Run;
    hide Step;
    hide Enabled;
    var s1 := Sending(registry, a, b);
    var s3 := Processing(registry, a, b);
    var s5 := Delivering(registry, a, b);
    var states := [Init(registry, 2), s1, BothSent(registry, a, b), s3, BothProcessed(registry, a, b), s5,
                   BothDelivered(registry, a, b)];
    assert states[..3] == [Init(registry, 2), s1, BothSent(registry, a, b)];
    assert states[2..5] == [BothSent(registry, a, b), s3, BothProcessed(registry, a, b)];
    assert states[4..] == [BothProcessed(registry, a, b), s5, BothDelivered(registry, a, b)];
    FollowsJoin([Send(a), Send(b)], states[..3], [Process(0), Process(0)], states[2..5]);
    assert states[..3] + states[2..5][1..] == states[..5];
    assert [Send(a), Send(b)] + [Process(0), Process(0)] == [Send(a), Send(b), Process(0), Process(0)];
    FollowsJoin([Send(a), Send(b), Process(0), Process(0)], states[..5], [Deliver(0), Deliver(0)], states[4..]);
    assert states[..5] + states[4..][1..] == states;
    assert [Send(a), Send(b), Process(0), Process(0)] + [Deliver(0), Deliver(0)] == Overlapping(a, b);
    FollowsRun(Overlapping(a, b), states);
  }

  lemma FollowsJoin(es: seq<Event>, ss: seq<State>, es': seq<Event>, ss': seq<State>)
    requires Follows(es, ss) && Follows(es', ss') && ss[|es|] == ss'[0]
    ensures Follows(es + es', ss + ss'[1..])
  {
    hide Enabled, Step;
    var events, states := es + es', ss + ss'[1..];
    forall i | 0 <= i <= |es'| ensures states[|es| + i] == ss'[i] {
    }
    forall i | |es| <= i < |events|
      ensures Enabled(states[i], events[i]) && states[i + 1] == Step(states[i], events[i])
    {
      assert states[|es| + (i - |es|)] == ss'[i - |es|] && states[|es| + (i - |es| + 1)] == ss'[i - |es| + 1];
    }
  }
}
