/**
  The stateful worker choice strategies (src/pools/selection-strategies): round robin, least used,
  weighted round robin, interleaved weighted round robin, and the context that retries a strategy
  which chose nothing. The run times that the pool has measured come in as a list, one per worker.
 */
module Strategies {
  import opened Wrappers
  import opened Rotation
  import WorkerNodes
  import Balance
  import Statistics

  class RoundRobinWorkerChoiceStrategy {
    var nextWorkerNodeKey: nat
    var previousWorkerNodeKey: nat
    ghost var choices: nat

    constructor ()
      ensures nextWorkerNodeKey == 0 && previousWorkerNodeKey == 0 && choices == 0
    {
      nextWorkerNodeKey, previousWorkerNodeKey, choices := 0, 0, 0;
    }

    /** In a pool of n workers, the i-th choice is worker i mod n. */
    method Choose(n: nat) returns (chosenWorkerNodeKey: nat)
      requires nextWorkerNodeKey < n
      modifies this
      ensures chosenWorkerNodeKey == old(nextWorkerNodeKey) == previousWorkerNodeKey
      ensures nextWorkerNodeKey == Next(old(nextWorkerNodeKey), n)
      ensures choices == old(choices) + 1
      ensures old(nextWorkerNodeKey) == old(choices) % n ==>
        chosenWorkerNodeKey == old(choices) % n && nextWorkerNodeKey == choices % n
    {
      chosenWorkerNodeKey := nextWorkerNodeKey;
      previousWorkerNodeKey := chosenWorkerNodeKey;
      nextWorkerNodeKey := if nextWorkerNodeKey == n - 1 then 0 else nextWorkerNodeKey + 1;
      Balance.DivStep(choices, n);
      choices := choices + 1;
    }
  }

  class LeastUsedWorkerChoiceStrategy {
    var nextWorkerNodeKey: nat
    var previousWorkerNodeKey: nat

    constructor ()
      ensures nextWorkerNodeKey == 0 && previousWorkerNodeKey == 0
    {
      nextWorkerNodeKey, previousWorkerNodeKey := 0, 0;
    }

    /** Chooses the first of the least loaded workers. */
    method Choose(nodes: seq<WorkerNodes.Node>) returns (key: nat)
      requires 0 < |nodes|
      modifies this
      ensures key < |nodes| && key == nextWorkerNodeKey && previousWorkerNodeKey == old(nextWorkerNodeKey)
      ensures forall j :: 0 <= j < |nodes| ==> Balance.Load(nodes[key]) <= Balance.Load(nodes[j])
      ensures forall j :: 0 <= j < key ==> Balance.Load(nodes[key]) < Balance.Load(nodes[j])
      ensures key == Balance.LeastUsedKey(nodes, |nodes|)
    {
      previousWorkerNodeKey := nextWorkerNodeKey;
      nextWorkerNodeKey := Balance.LeastUsedKey(nodes, |nodes|);
      Balance.LeastUsedIsFirstMinimum(nodes, |nodes|);
      key := nextWorkerNodeKey;
    }
  }

  /** The weights option, with the weight computed from the CPU speed for workers it leaves out. */
  datatype WeightOptions = WeightOptions(given: Option<seq<real>>, defaultWorkerWeight: real) {
    function Weight(key: nat): real {
      if given.Some? && key < |given.value| then given.value[key] else defaultWorkerWeight
    }

    function Weights(n: nat): seq<real> {
      seq(n, key requires 0 <= key < n => Weight(key))
    }

    /** What the pool has checked: positive weights, and one for each worker if any are given. */
    ghost predicate Valid(n: nat) {
      && 0.0 < defaultWorkerWeight
      && (given.Some? ==> n <= |given.value| && given.value != [] && forall w :: w in given.value ==> 0.0 < w)
    }
  }

  class WeightedRoundRobinWorkerChoiceStrategy {
    const opts: WeightOptions
    var nextWorkerNodeKey: nat
    var previousWorkerNodeKey: nat
    var workerNodeVirtualTaskRunTime: real

    constructor (opts: WeightOptions)
      ensures this.opts == opts && CurrentToken() == Token(0, 0.0) && previousWorkerNodeKey == 0
    {
      this.opts := opts;
      nextWorkerNodeKey, previousWorkerNodeKey := 0, 0;
      workerNodeVirtualTaskRunTime := 0.0;
    }

    function CurrentToken(): Token
      reads this
    {
      Token(nextWorkerNodeKey, workerNodeVirtualTaskRunTime)
    }

    /** Passes the token on; a worker that has just received it is not charged for this pick. */
    method Choose(runTimes: seq<real>) returns (key: nat)
      requires nextWorkerNodeKey < |runTimes|
      modifies this
      ensures var n := |runTimes|;
        CurrentToken() == Pass(opts.Weights(n), n, old(CurrentToken()), runTimes, false)
      ensures key == nextWorkerNodeKey && previousWorkerNodeKey == old(nextWorkerNodeKey)
    {
      previousWorkerNodeKey := nextWorkerNodeKey;
      if workerNodeVirtualTaskRunTime < opts.Weight(nextWorkerNodeKey) {
        workerNodeVirtualTaskRunTime := workerNodeVirtualTaskRunTime + runTimes[nextWorkerNodeKey];
      } else {
        nextWorkerNodeKey := if nextWorkerNodeKey == |runTimes| - 1 then 0 else nextWorkerNodeKey + 1;
        workerNodeVirtualTaskRunTime := 0.0;
      }
      key := nextWorkerNodeKey;
    }
  }

  /**
    A run of choices in a pool of n workers: the workers chosen are those that the token visits. With
    valid weights and run times, a worker's turn lasts while what it ran for since the pick after the
    one that gave it the token is below its weight.
   */
  method ChooseAll(strategy: WeightedRoundRobinWorkerChoiceStrategy, n: nat, times: seq<seq<real>>)
    returns (picks: seq<nat>)
    requires strategy.nextWorkerNodeKey < n
    requires forall i :: 0 <= i < |times| ==> |times[i]| == n
    modifies strategy
    ensures picks == Keys(Tokens(strategy.opts.Weights(n), n, old(strategy.CurrentToken()), times, false))
    ensures 1 < n && strategy.opts.Valid(n) && NonNegative(times) ==>
      Turns(strategy.opts.Weights(n), old(strategy.CurrentToken()), picks, times, false)
  {
    hide Tokens, Pass, Turns;
    picks := [];
    var weights := strategy.opts.Weights(n);
    ghost var start := strategy.CurrentToken();
    for i := 0 to |times|
      invariant strategy.nextWorkerNodeKey < n
      invariant picks == Keys(Tokens(weights, n, start, times[..i], false))
      invariant strategy.CurrentToken() ==
        if i == 0 then start else Tokens(weights, n, start, times[..i], false)[i - 1]
    {
      var key := strategy.Choose(times[i]);
      picks := picks + [key];
      TokensThen(weights, n, start, times, false, i);
    }
    assert times[..|times|] == times;
    if 1 < n && strategy.opts.Valid(n) && NonNegative(times) {
      WeightsPositive(strategy.opts, n);
      TokensTurn(weights, start, times, false);
    }
  }

  predicate NonNegative(times: seq<seq<real>>) {
    forall i, k :: 0 <= i < |times| && 0 <= k < |times[i]| ==> 0.0 <= times[i][k]
  }

  lemma WeightsPositive(opts: WeightOptions, n: nat)
    requires opts.Valid(n)
    ensures forall k :: 0 <= k < n ==> 0.0 < opts.Weights(n)[k]
  {
    forall k | 0 <= k < n ensures 0.0 < opts.Weights(n)[k] {
      assert opts.given.Some? ==> opts.given.value[k] in opts.given.value;
    }
  }

  // ---- Round weights: the given weights, sorted and without duplicates ----

  function InsertWeight(weights: seq<real>, w: real): (r: seq<real>)
    ensures r != []
  {
    if weights == [] || w < weights[0] then [w] + weights
    else if w == weights[0] then weights
    else [weights[0]] + InsertWeight(weights[1..], w)
  }

  function Deduplicated(weights: seq<real>): seq<real> {
    if weights == [] then [] else InsertWeight(Deduplicated(weights[1..]), weights[0])
  }

  function RoundWeights(opts: WeightOptions): seq<real> {
    if opts.given.None? then [opts.defaultWorkerWeight] else Deduplicated(opts.given.value)
  }

  predicate Ascending(weights: seq<real>) {
    forall i, j :: 0 <= i < j < |weights| ==> weights[i] < weights[j]
  }

  lemma {:induction false} InsertWeightKeeps(weights: seq<real>, w: real)
    requires Ascending(weights)
    ensures Ascending(InsertWeight(weights, w))
    ensures forall x :: x in InsertWeight(weights, w) <==> x in weights || x == w
  {
    if weights != [] && w > weights[0] {
      var rest := InsertWeight(weights[1..], w);
      InsertWeightKeeps(weights[1..], w);
      forall j | 0 <= j < |rest| ensures weights[0] < rest[j] {
        assert rest[j] in rest;
      }
      assert weights == [weights[0]] + weights[1..];
    }
  }

  /** The rounds are the given weights, each once, from the smallest up. */
  lemma {:induction false} RoundsAreWeights(weights: seq<real>)
    ensures Ascending(Deduplicated(weights))
    ensures forall x :: x in Deduplicated(weights) <==> x in weights
  {
    if weights != [] {
      RoundsAreWeights(weights[1..]);
      InsertWeightKeeps(Deduplicated(weights[1..]), weights[0]);
    }
  }

  lemma {:induction false} AscendingFirst(weights: seq<real>, w: real)
    requires Ascending(weights) && w in weights
    ensures weights[0] <= w
  {
    var i :| 0 <= i < |weights| && weights[i] == w;
  }

  /** In the first round every worker has the weight it takes to be chosen. */
  lemma FirstRoundIsLeast(opts: WeightOptions, n: nat, key: nat)
    requires opts.Valid(n) && key < n
    ensures |RoundWeights(opts)| > 0 && RoundWeights(opts)[0] <= opts.Weight(key)
    ensures 0.0 < opts.Weight(key)
  {
    if opts.given.Some? {
      var weights := opts.given.value;
      var w := weights[key];
      assert w in weights;
      RoundsAreWeights(weights);
      assert w in Deduplicated(weights);
      AscendingFirst(Deduplicated(weights), w);
    }
  }

  // ---- Interleaved weighted round robin ----

  class InterleavedWeightedRoundRobinWorkerChoiceStrategy {
    const opts: WeightOptions
    const roundWeights: seq<real>
    var roundId: nat
    var workerNodeId: nat
    var workerNodeVirtualTaskRunTime: real
    var nextWorkerNodeKey: nat
    var previousWorkerNodeKey: nat
    ghost var calls: nat

    constructor (opts: WeightOptions, n: nat)
      requires opts.Valid(n) && 0 < n
      ensures this.opts == opts && Valid(n) && Settled() && CurrentToken() == Token(0, 0.0)
    {
      this.opts := opts;
      roundWeights := RoundWeights(opts);
      roundId, workerNodeId, nextWorkerNodeKey, previousWorkerNodeKey := 0, 0, 0, 0;
      workerNodeVirtualTaskRunTime := 0.0;
      calls := 0;
    }

    function CurrentToken(): Token
      reads this
    {
      Token(nextWorkerNodeKey, workerNodeVirtualTaskRunTime)
    }

    /** The cursor of the worker loop is at the worker chosen last. */
    predicate Settled()
      reads this
    {
      workerNodeId == nextWorkerNodeKey
    }

    /** The worker holding the token is the last one and has used up its weight. */
    predicate Exhausted(n: nat)
      reads this
    {
      nextWorkerNodeKey == n - 1 && opts.Weight(nextWorkerNodeKey) <= workerNodeVirtualTaskRunTime
    }

    /** Between calls the round is always the first one, and the cursor is settled or was just reset. */
    ghost predicate Valid(n: nat)
      reads this
    {
      && opts.Valid(n)
      && roundWeights == RoundWeights(opts)
      && roundId == 0
      && nextWorkerNodeKey < n
      && 0.0 <= workerNodeVirtualTaskRunTime
      && (Settled() || (workerNodeId == 0 && Exhausted(n)))
    }

    /**
      One pass of the nested loops. It chooses nothing exactly when the cursor stands at the last
      worker and its weight is used up; otherwise the token is passed on, whatever the round weights.
     */
    method Choose(runTimes: seq<real>) returns (key: Option<nat>)
      requires Valid(|runTimes|) && forall k :: 0 <= k < |runTimes| ==> 0.0 <= runTimes[k]
      modifies this
      ensures Valid(|runTimes|) && calls == old(calls) + 1
      ensures key == None <==> old(Settled() && Exhausted(|runTimes|))
      ensures key == None ==> CurrentToken() == old(CurrentToken()) && workerNodeId == 0
      ensures key.Some? ==>
        && key.value == nextWorkerNodeKey && Settled()
        && CurrentToken() == Pass(opts.Weights(|runTimes|), |runTimes|, old(CurrentToken()), runTimes, true)
        && previousWorkerNodeKey == old(nextWorkerNodeKey)
    {
      var n := |runTimes|;
      calls := calls + 1;
      FirstRoundIsLeast(opts, n, 0);
      var roundIndex := roundId;
      while roundIndex < |roundWeights|
        invariant roundIndex <= |roundWeights|
        invariant nextWorkerNodeKey == old(nextWorkerNodeKey) && calls == old(calls) + 1
        invariant roundIndex == 0 ==>
          roundId == 0 && workerNodeId == old(workerNodeId) && CurrentToken() == old(CurrentToken())
        invariant roundIndex > 0 ==>
          roundId == roundIndex - 1 && workerNodeId == n - 1 && CurrentToken() == old(CurrentToken())
          && old(Settled() && Exhausted(n))
      {
        roundId := roundIndex;
        var workerNodeKey := workerNodeId;
        while workerNodeKey < n
          invariant workerNodeKey <= n && roundId == roundIndex
          invariant nextWorkerNodeKey == old(nextWorkerNodeKey) && calls == old(calls) + 1
          invariant CurrentToken() == old(CurrentToken())
          invariant workerNodeKey == n ==> workerNodeId == n - 1
          invariant roundIndex > 0 ==> workerNodeKey >= n - 1 && old(Settled() && Exhausted(n))
          invariant roundIndex == 0 ==>
            (workerNodeKey == old(workerNodeId)
             || (old(Settled()) && workerNodeKey == nextWorkerNodeKey + 1
                 && opts.Weight(nextWorkerNodeKey) <= workerNodeVirtualTaskRunTime))
        {
          workerNodeId := workerNodeKey;
          if workerNodeId != nextWorkerNodeKey && workerNodeVirtualTaskRunTime != 0.0 {
            workerNodeVirtualTaskRunTime := 0.0;
          }
          var workerWeight := opts.Weight(workerNodeKey);
          FirstRoundIsLeast(opts, n, workerNodeKey);
          if workerWeight >= roundWeights[roundIndex] && workerNodeVirtualTaskRunTime < workerWeight {
            workerNodeVirtualTaskRunTime := workerNodeVirtualTaskRunTime + runTimes[workerNodeKey];
            previousWorkerNodeKey := nextWorkerNodeKey;
            nextWorkerNodeKey := workerNodeKey;
            roundId := roundIndex;
            return Some(nextWorkerNodeKey);
          }
          workerNodeKey := workerNodeKey + 1;
        }
        roundIndex := roundIndex + 1;
      }
      InterleavedWeightedRoundRobinNextWorkerNodeId(n);
      return None;
    }

    method InterleavedWeightedRoundRobinNextWorkerNodeId(n: nat)
      requires 0 < n && workerNodeId < n
      modifies this`roundId, this`workerNodeId
      ensures workerNodeId == Next(old(workerNodeId), n)
      ensures roundId ==
        if old(workerNodeId) < n - 1 then old(roundId)
        else if old(roundId) == |roundWeights| - 1 then 0 else old(roundId) + 1
    {
      if roundId == |roundWeights| - 1 && workerNodeId == n - 1 {
        roundId := 0;
        workerNodeId := 0;
      } else if workerNodeId == n - 1 {
        roundId := roundId + 1;
        workerNodeId := 0;
      } else {
        workerNodeId := workerNodeId + 1;
      }
    }
  }

  // ---- The context ----

  datatype Execution = Chosen(key: nat) | Failed(retries: nat)

  /** The context around the interleaved strategy, the only one modelled that may choose nothing. */
  class WorkerChoiceStrategyContext {
    const retries: nat
    const strategy: InterleavedWeightedRoundRobinWorkerChoiceStrategy
    var retriesCount: nat

    constructor (strategy: InterleavedWeightedRoundRobinWorkerChoiceStrategy, retries: nat)
      ensures this.strategy == strategy && this.retries == retries && retriesCount == 0
    {
      this.strategy := strategy;
      this.retries := retries;
      retriesCount := 0;
    }

    /** Whether execute finds a worker: the last of several workers can pass the token on only in a retry. */
    predicate Succeeds(n: nat)
      reads this, strategy
    {
      !(strategy.Settled() && strategy.Exhausted(n)) || (n > 1 && retriesCount < retries)
    }

    /**
      Execute chooses a worker exactly when Succeeds said so. It then has passed the token on once,
      needs at most one retry, and forgets its retries; when it fails it has used them up, for good.
     */
    method Execute(runTimes: seq<real>) returns (r: Execution)
      requires strategy.Valid(|runTimes|) && forall k :: 0 <= k < |runTimes| ==> 0.0 <= runTimes[k]
      requires retriesCount <= retries
      modifies this`retriesCount, strategy
      decreases retries - retriesCount
      ensures strategy.Valid(|runTimes|) && retriesCount <= retries
      ensures r.Chosen? <==> old(Succeeds(|runTimes|))
      ensures r.Chosen? ==>
        && r.key < |runTimes| && r.key == strategy.nextWorkerNodeKey && strategy.Settled()
        && strategy.CurrentToken()
             == Pass(strategy.opts.Weights(|runTimes|), |runTimes|, old(strategy.CurrentToken()), runTimes, true)
        && retriesCount == 0
        && strategy.calls == old(strategy.calls) + if old(strategy.Settled() && strategy.Exhausted(|runTimes|)) then 2 else 1
      ensures r.Failed? ==>
        r.retries == retriesCount == retries && strategy.CurrentToken() == old(strategy.CurrentToken())
    {
      var workerNodeKey := strategy.Choose(runTimes);
      if workerNodeKey == None && retriesCount < retries {
        retriesCount := retriesCount + 1;
        r := Execute(runTimes);
        return;
      } else if workerNodeKey == None {
        return Failed(retriesCount);
      }
      retriesCount := 0;
      return Chosen(workerNodeKey.value);
    }
  }

  /**
    A run of executions in a pool of n workers, n > 1, from the start: none fails, and the workers
    chosen are those that the token visits. A worker's turn lasts while what it ran for, from the pick
    on that gave it the token, is below its weight.
   */
  method ExecuteAll(context: WorkerChoiceStrategyContext, n: nat, times: seq<seq<real>>) returns (picks: seq<nat>)
    requires 1 < n && context.strategy.Valid(n) && context.strategy.Settled()
    requires context.retriesCount == 0 < context.retries
    requires forall i :: 0 <= i < |times| ==> |times[i]| == n
    requires forall i, k :: 0 <= i < |times| && 0 <= k < n ==> 0.0 <= times[i][k]
    modifies context`retriesCount, context.strategy
    ensures picks == Keys(Tokens(context.strategy.opts.Weights(n), n, old(context.strategy.CurrentToken()), times, true))
    ensures Turns(context.strategy.opts.Weights(n), old(context.strategy.CurrentToken()), picks, times, true)
    ensures context.retriesCount == 0
  {
    hide Tokens, Pass, Turns;
    picks := [];
    var strategy := context.strategy;
    var weights := strategy.opts.Weights(n);
    ghost var start := strategy.CurrentToken();
    for i := 0 to |times|
      invariant strategy.Valid(n) && strategy.Settled() && context.retriesCount == 0
      invariant picks == Keys(Tokens(weights, n, start, times[..i], true))
      invariant strategy.CurrentToken() ==
        if i == 0 then start else Tokens(weights, n, start, times[..i], true)[i - 1]
    {
      var r := context.Execute(times[i]);
      picks := picks + [r.key];
      TokensThen(weights, n, start, times, true, i);
    }
    assert times[..|times|] == times;
    WeightsPositive(strategy.opts, n);
    TokensTurn(weights, start, times, true);
  }

  /**
    In a pool of one worker nothing ever resets what the worker is charged: an execution finds the
    worker if and only if the run times charged before it are together still below the weight, and
    once one fails, all later ones fail.
   */
  method ExecuteAlone(context: WorkerChoiceStrategyContext, times: seq<real>) returns (results: seq<Execution>)
    requires context.strategy.Valid(1) && context.strategy.Settled() && context.retriesCount == 0
    requires forall i :: 0 <= i < |times| ==> 0.0 <= times[i]
    modifies context`retriesCount, context.strategy
    ensures |results| == |times|
    ensures var weight, start := context.strategy.opts.Weight(0), old(context.strategy.workerNodeVirtualTaskRunTime);
      && (forall i :: 0 <= i < |times| ==> (results[i].Chosen? <==> start + Statistics.Sum(times[..i]) < weight))
      && (forall i, j :: 0 <= i < j < |times| && results[i].Failed? ==> results[j].Failed?)
  {
    results := [];
    var strategy := context.strategy;
    ghost var weight, start := strategy.opts.Weight(0), strategy.workerNodeVirtualTaskRunTime;
    for i := 0 to |times|
      invariant strategy.Valid(1) && strategy.Settled() && context.retriesCount <= context.retries
      invariant var charged := strategy.workerNodeVirtualTaskRunTime;
        if charged < weight then charged == start + Statistics.Sum(times[..i])
        else start + Statistics.Sum(times[..i]) >= weight
      invariant |results| == i
      invariant forall j :: 0 <= j < i ==> (results[j].Chosen? <==> start + Statistics.Sum(times[..j]) < weight)
      invariant forall j :: 0 <= j < i && results[j].Failed? ==> strategy.workerNodeVirtualTaskRunTime >= weight
      invariant forall j, k :: 0 <= j < k < i && results[j].Failed? ==> results[k].Failed?
    {
      assert times[..i + 1][..i] == times[..i];
      var result := context.Execute([times[i]]);
      results := results + [result];
    }
  }
}
