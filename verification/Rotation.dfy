/**
  Schedulers that stay on a worker until its time is used up and then go on to the next one: what
  such a rotation promises over whole runs, and the token that the two weighted round robin
  strategies pass on.
 */
module Rotation {

  // ---- Rotations ----

  function Next(key: nat, n: nat): (r: nat)
    requires key < n
    ensures r < n
  {
    if key == n - 1 then 0 else key + 1
  }

  /** Each pick repeats the one before or goes to the next worker. */
  ghost predicate Rotates(picks: seq<nat>, n: nat) {
    && (forall i :: 0 <= i < |picks| ==> picks[i] < n)
    && forall i, j :: 0 <= i && j == i + 1 < |picks| ==> picks[j] == picks[i] || picks[j] == Next(picks[i], n)
  }

  /** No worker is picked more than `most` times in a row. */
  ghost predicate ShortBursts(picks: seq<nat>, most: nat) {
    forall i {:trigger Ends(picks, i, most)} :: 0 <= i < |picks| - most ==> Ends(picks, i, most)
  }

  /** The worker picked at position i is not picked for the next `most` times as well. */
  ghost predicate Ends(picks: seq<nat>, i: nat, most: nat)
    requires i + most < |picks|
  {
    exists j :: i < j <= i + most && picks[j] != picks[i]
  }

  /** How many workers on a target is, going round from key. */
  function Distance(key: nat, target: nat, n: nat): nat
    requires key < n && target < n
  {
    if target >= key then target - key else target + n - key
  }

  /** The first pick after position i of a worker other than picks[i]. */
  lemma {:induction false} FirstChange(picks: seq<nat>, i: nat, j: nat) returns (c: nat)
    requires i < j < |picks| && picks[j] != picks[i]
    ensures i < c <= j && picks[c] != picks[i] && picks[c - 1] == picks[i]
  {
    if picks[j - 1] == picks[i] {
      c := j;
    } else {
      c := FirstChange(picks, i, j - 1);
    }
  }

  function Span(d: nat, most: nat): nat {
    if d == 0 then 0 else most + Span(d - 1, most)
  }

  lemma {:induction false} SpanIsProduct(d: nat, most: nat)
    ensures Span(d, most) == d * most
  {
    if d > 0 {
      SpanIsProduct(d - 1, most);
      assert d * most == most + (d - 1) * most;
    }
  }

  lemma {:induction false} SpanGrows(d: nat, e: nat, most: nat)
    requires d <= e
    ensures Span(d, most) <= Span(e, most)
  {
    if d < e {
      SpanGrows(d, e - 1, most);
    }
  }

  lemma {:induction false} Reaches(picks: seq<nat>, n: nat, most: nat, i: nat, target: nat, d: nat) returns (j: nat)
    requires Rotates(picks, n) && ShortBursts(picks, most) && target < n && i < |picks|
    requires d == Distance(picks[i], target, n) && i + Span(d, most) < |picks|
    ensures i <= j <= i + Span(d, most) && picks[j] == target
    decreases d
  {
    if d == 0 {
      j := i;
    } else {
      assert Ends(picks, i, most);
      var k :| i < k <= i + most && picks[k] != picks[i];
      var c := FirstChange(picks, i, k);
      assert picks[c] == Next(picks[i], n);
      j := Reaches(picks, n, most, c, target, d - 1);
    }
  }

  /** No worker starves: any (n - 1) * most + 1 picks in a row contain every worker. */
  lemma EveryWindowContainsAll(picks: seq<nat>, n: nat, most: nat, i: nat, target: nat) returns (j: nat)
    requires Rotates(picks, n) && ShortBursts(picks, most) && target < n
    requires i + (n - 1) * most < |picks|
    ensures i <= j <= i + (n - 1) * most && picks[j] == target
  {
    SpanIsProduct(n - 1, most);
    j := WindowContains(picks, n, most, i, target);
  }

  lemma WindowContains(picks: seq<nat>, n: nat, most: nat, i: nat, target: nat) returns (j: nat)
    requires Rotates(picks, n) && ShortBursts(picks, most) && target < n
    requires i + Span(n - 1, most) < |picks|
    ensures i <= j <= i + Span(n - 1, most) && picks[j] == target
  {
    var d := Distance(picks[i], target, n);
    SpanGrows(d, n - 1, most);
    j := Reaches(picks, n, most, i, target, d);
  }

  // ---- The token of the weighted strategies ----

  /** The worker whose turn it is, and the run time charged to its turn so far. */
  datatype Token = Token(key: nat, runTime: real)

  /**
    One pick: the worker keeps the token while its charged run time is below its weight; else the
    next worker gets it, with its own run time already charged or not.
   */
  function Pass(weights: seq<real>, n: nat, token: Token, runTimes: seq<real>, charge: bool): (r: Token)
    requires token.key < n <= |weights| && n <= |runTimes|
    ensures r.key < n
  {
    if token.runTime < weights[token.key] then
      Token(token.key, token.runTime + runTimes[token.key])
    else
      var next := Next(token.key, n);
      Token(next, if charge then runTimes[next] else 0.0)
  }

  /** Measured run times, one list per pick, and weights a strategy may meet. */
  ghost predicate Measured(times: seq<seq<real>>, n: nat, least: real, most: real) {
    && (forall i :: 0 <= i < |times| ==> |times[i]| >= n)
    && forall i, k :: 0 <= i < |times| && 0 <= k < n ==> least <= times[i][k] <= most
  }

  ghost predicate Weights(weights: seq<real>, n: nat, heaviest: real) {
    n <= |weights| && forall k :: 0 <= k < n ==> 0.0 < weights[k] <= heaviest
  }

  /** The token after each pick of a run. */
  function Tokens(weights: seq<real>, n: nat, start: Token, times: seq<seq<real>>, charge: bool): (r: seq<Token>)
    requires start.key < n <= |weights|
    requires forall i :: 0 <= i < |times| ==> |times[i]| >= n
    ensures |r| == |times|
    ensures forall i :: 0 <= i < |r| ==> r[i].key < n
  {
    if times == [] then []
    else
      var last := |times| - 1;
      var front := Tokens(weights, n, start, times[..last], charge);
      front + [Pass(weights, n, if last == 0 then start else front[last - 1], times[last], charge)]
  }

  /** One more pick of a run. */
  lemma TokensThen(weights: seq<real>, n: nat, start: Token, times: seq<seq<real>>, charge: bool, i: nat)
    requires start.key < n <= |weights| && i < |times|
    requires forall i :: 0 <= i < |times| ==> |times[i]| >= n
    ensures var before := Tokens(weights, n, start, times[..i], charge);
      Tokens(weights, n, start, times[..i + 1], charge)
        == before + [Pass(weights, n, if i == 0 then start else before[i - 1], times[i], charge)]
  {
    assert times[..i + 1][..i] == times[..i];
  }

  lemma {:induction false} TokenAt(weights: seq<real>, n: nat, start: Token, times: seq<seq<real>>, charge: bool, i: nat)
    requires start.key < n <= |weights| && i < |times|
    requires forall i :: 0 <= i < |times| ==> |times[i]| >= n
    ensures var r := Tokens(weights, n, start, times, charge);
      r[i] == Pass(weights, n, if i == 0 then start else r[i - 1], times[i], charge)
  {
    if i < |times| - 1 {
      TokenAt(weights, n, start, times[..|times| - 1], charge, i);
    }
  }

  function Keys(tokens: seq<Token>): (r: seq<nat>)
    ensures |r| == |tokens| && forall i :: 0 <= i < |r| ==> r[i] == tokens[i].key
  {
    seq(|tokens|, i requires 0 <= i < |tokens| => tokens[i].key)
  }

  /** The smallest whole number of run times of at least `least` that uses up the heaviest weight, and one. */
  function Burst(heaviest: real, least: real): (r: nat)
    requires 0.0 < least && 0.0 < heaviest
    ensures 2 <= r
    ensures (r - 2) as real < heaviest / least <= (r - 1) as real
  {
    var quotient := heaviest / least;
    assert quotient > 0.0;
    if quotient.Floor as real == quotient then quotient.Floor + 1 else quotient.Floor + 2
  }

  lemma DivideOut(x: real, heaviest: real, least: real)
    requires 0.0 < least && x * least < heaviest
    ensures x < heaviest / least
  {
    var quotient := heaviest / least;
    assert quotient * least == heaviest;
    assert (quotient - x) * least > 0.0;
  }

  lemma TokensRotate(weights: seq<real>, n: nat, start: Token, times: seq<seq<real>>, charge: bool)
    requires start.key < n <= |weights|
    requires forall i :: 0 <= i < |times| ==> |times[i]| >= n
    ensures Rotates(Keys(Tokens(weights, n, start, times, charge)), n)
  {
    var r := Tokens(weights, n, start, times, charge);
    var picks := Keys(r);
    forall i, j | 0 <= i && j == i + 1 < |picks| ensures picks[j] == picks[i] || picks[j] == Next(picks[i], n) {
      TokenAt(weights, n, start, times, charge, j);
    }
  }

  /** The charged run time stays below the weight of the worker holding the token plus the longest run time. */
  lemma {:induction false} ChargeBounded(weights: seq<real>, n: nat, start: Token, times: seq<seq<real>>, charge: bool,
                                         longest: real, heaviest: real, i: nat)
    requires start.key < n && Weights(weights, n, heaviest) && Measured(times, n, 0.0, longest)
    requires 0.0 <= longest && i < |times|
    requires 0.0 <= start.runTime < weights[start.key] + longest
    ensures var t := Tokens(weights, n, start, times, charge)[i];
      0.0 <= t.runTime < weights[t.key] + longest
  {
    if i > 0 {
      ChargeBounded(weights, n, start, times, charge, longest, heaviest, i - 1);
    }
    TokenAt(weights, n, start, times, charge, i);
    var before := if i == 0 then start else Tokens(weights, n, start, times, charge)[i - 1];
    assert 0.0 <= times[i][before.key] <= longest;
    assert 0.0 <= times[i][Next(before.key, n)] <= longest;
  }

  function Times(m: nat, x: real): real {
    if m == 0 then 0.0 else Times(m - 1, x) + x
  }

  lemma {:induction false} TimesIsProduct(m: nat, x: real)
    ensures Times(m, x) == m as real * x
  {
    if m > 0 {
      TimesIsProduct(m - 1, x);
      assert m as real * x == (m - 1) as real * x + x;
    }
  }

  /** While the token stays, every pick but the first is charged at least the least run time. */
  lemma {:induction false} StayCharges(weights: seq<real>, n: nat, start: Token, times: seq<seq<real>>, charge: bool,
                                       least: real, longest: real, heaviest: real, i: nat, m: nat)
    requires 2 <= n && start.key < n && Weights(weights, n, heaviest) && Measured(times, n, least, longest)
    requires 0.0 <= least <= longest && 0.0 <= start.runTime < weights[start.key] + longest
    requires i + m < |times|
    requires forall j :: i <= j <= i + m ==>
      Tokens(weights, n, start, times, charge)[j].key == Tokens(weights, n, start, times, charge)[i].key
    ensures Tokens(weights, n, start, times, charge)[i + m].runTime >= Times(m, least)
    ensures m > 0 ==> Times(m - 1, least) < heaviest
  {
    var r := Tokens(weights, n, start, times, charge);
    ChargeBounded(weights, n, start, times, charge, longest, heaviest, i + m);
    if m > 0 {
      StayCharges(weights, n, start, times, charge, least, longest, heaviest, i, m - 1);
      TokenAt(weights, n, start, times, charge, i + m);
      var before := r[i + m - 1];
      StayPass(weights, n, before, times[i + m], charge);
      assert least <= times[i + m][before.key];
    }
  }

  lemma StayPass(weights: seq<real>, n: nat, token: Token, runTimes: seq<real>, charge: bool)
    requires 2 <= n <= |weights| && token.key < n <= |runTimes|
    requires Pass(weights, n, token, runTimes, charge).key == token.key
    ensures token.runTime < weights[token.key]
    ensures Pass(weights, n, token, runTimes, charge).runTime == token.runTime + runTimes[token.key]
  {
  }

  lemma BurstBound(m: nat, heaviest: real, least: real)
    requires 0.0 < least && 0.0 < heaviest && (m > 0 ==> Times(m - 1, least) < heaviest)
    ensures m < Burst(heaviest, least)
  {
    if m > 0 {
      TimesIsProduct(m - 1, least);
      DivideOut((m - 1) as real, heaviest, least);
    }
  }

  lemma StayEnds(weights: seq<real>, n: nat, start: Token, times: seq<seq<real>>, charge: bool,
                 least: real, longest: real, heaviest: real, i: nat, m: nat)
    requires 2 <= n && start.key < n && Weights(weights, n, heaviest) && Measured(times, n, least, longest)
    requires 0.0 < least <= longest && 0.0 <= start.runTime < weights[start.key] + longest && 0.0 < heaviest
    requires i + m < |times|
    requires forall j :: i <= j <= i + m ==>
      Tokens(weights, n, start, times, charge)[j].key == Tokens(weights, n, start, times, charge)[i].key
    ensures m < Burst(heaviest, least)
  {
    StayCharges(weights, n, start, times, charge, least, longest, heaviest, i, m);
    BurstBound(m, heaviest, least);
  }

  /** No worker is picked more often in a row than Burst allows. */
  lemma TokensBurst(weights: seq<real>, n: nat, start: Token, times: seq<seq<real>>, charge: bool,
                    least: real, longest: real, heaviest: real)
    requires 2 <= n && start.key < n && Weights(weights, n, heaviest) && Measured(times, n, least, longest)
    requires 0.0 < least <= longest && 0.0 <= start.runTime < weights[start.key] + longest && 0.0 < heaviest
    ensures ShortBursts(Keys(Tokens(weights, n, start, times, charge)), Burst(heaviest, least))
  {
    hide Tokens;
    hide Burst;
    var r := Tokens(weights, n, start, times, charge);
    var picks := Keys(r);
    var most := Burst(heaviest, least);
    forall i | 0 <= i < |picks| - most ensures Ends(picks, i, most) {
      if forall j :: i < j <= i + most ==> picks[j] == picks[i] {
        assert forall j :: i <= j <= i + most ==> r[j].key == picks[j];
        StayEnds(weights, n, start, times, charge, least, longest, heaviest, i, most);
      }
    }
  }

  /** Every window of (n - 1) * Burst + 1 picks contains every worker. */
  lemma TokensNeverStarve(weights: seq<real>, n: nat, start: Token, times: seq<seq<real>>, charge: bool,
                          least: real, longest: real, heaviest: real, i: nat, target: nat)
    returns (j: nat)
    requires 2 <= n && start.key < n && Weights(weights, n, heaviest) && Measured(times, n, least, longest)
    requires 0.0 < least <= longest && 0.0 <= start.runTime < weights[start.key] + longest && 0.0 < heaviest
    requires target < n && i + (n - 1) * Burst(heaviest, least) < |times|
    ensures i <= j <= i + (n - 1) * Burst(heaviest, least) && j < |times|
    ensures Tokens(weights, n, start, times, charge)[j].key == target
  {
    var r := Tokens(weights, n, start, times, charge);
    TokensRotate(weights, n, start, times, charge);
    TokensBurst(weights, n, start, times, charge, least, longest, heaviest);
    j := EveryWindowContainsAll(Keys(r), n, Burst(heaviest, least), i, target);
  }

  /** Between two wraps from the last worker to the first, every worker is picked. */
  lemma {:induction false} ClimbsThrough(picks: seq<nat>, n: nat, i: nat, j: nat, target: nat) returns (k: nat)
    requires Rotates(picks, n) && i <= j < |picks| && picks[i] <= target <= picks[j]
    ensures i <= k <= j && picks[k] == target
  {
    if picks[j] == target {
      k := j;
    } else {
      assert picks[j - 1] >= picks[j] - 1;
      k := ClimbsThrough(picks, n, i, j - 1, target);
    }
  }

  lemma EveryWrapContainsAll(picks: seq<nat>, n: nat, a: nat, b: nat, target: nat) returns (k: nat)
    requires 0 < n && Rotates(picks, n) && a < b < |picks| && target < n
    requires picks[a] == n - 1 && picks[a + 1] == 0 && picks[b] == n - 1
    ensures a < k <= b && picks[k] == target
  {
    k := ClimbsThrough(picks, n, a + 1, b, target);
  }

  /**
    Before any task of a worker was measured its run time is taken to be zero, and then the token
    does not move: every pick is the worker that holds it.
   */
  lemma {:induction false} UnmeasuredNeverMoves(weights: seq<real>, n: nat, start: Token, times: seq<seq<real>>,
                                                charge: bool, i: nat)
    requires start.key < n <= |weights| && start.runTime < weights[start.key] && i < |times|
    requires forall j :: 0 <= j < |times| ==> |times[j]| >= n && times[j][start.key] == 0.0
    ensures Tokens(weights, n, start, times, charge)[i] == start
  {
    TokenAt(weights, n, start, times, charge, i);
    if i > 0 {
      UnmeasuredNeverMoves(weights, n, start, times, charge, i - 1);
    }
  }

  /** What worker key ran for at the picks from lo up to, not including, hi, together. */
  function RunTimes(times: seq<seq<real>>, key: nat, lo: nat, hi: nat): real
    requires hi <= |times| && forall j :: 0 <= j < |times| ==> key < |times[j]|
    decreases hi
  {
    if hi <= lo then 0.0 else RunTimes(times, key, lo, hi - 1) + times[hi - 1][key]
  }

  /** The first m picks leave the token at the worker key. */
  predicate Stays(tokens: seq<Token>, key: nat, m: nat) {
    m <= |tokens| && forall i :: 0 <= i < m ==> tokens[i].key == key
  }

  /** While the token stays where it is, all run times of its worker are charged. */
  lemma {:induction false} StayingCharges(weights: seq<real>, n: nat, start: Token, times: seq<seq<real>>,
                                          charge: bool, m: nat)
    requires 2 <= n <= |weights| && start.key < n && 0 < m <= |times|
    requires forall j :: 0 <= j < |times| ==> |times[j]| >= n
    requires Stays(Tokens(weights, n, start, times, charge), start.key, m)
    ensures Tokens(weights, n, start, times, charge)[m - 1].runTime == start.runTime + RunTimes(times, start.key, 0, m)
  {
    TokenAt(weights, n, start, times, charge, m - 1);
    if m > 1 {
      StayingCharges(weights, n, start, times, charge, m - 1);
    }
  }

  /**
    The token of two or more workers has not moved after m picks, if and only if what was charged
    before the last of them, at the start and for the picks in between, is below the weight.
   */
  lemma {:induction false} StaysExactly(weights: seq<real>, n: nat, start: Token, times: seq<seq<real>>,
                                        charge: bool, m: nat)
    requires 2 <= n <= |weights| && start.key < n && 0 < m <= |times|
    requires forall j :: 0 <= j < |times| ==> |times[j]| >= n && 0.0 <= times[j][start.key]
    ensures Stays(Tokens(weights, n, start, times, charge), start.key, m)
      <==> start.runTime + RunTimes(times, start.key, 0, m - 1) < weights[start.key]
  {
    TokenAt(weights, n, start, times, charge, m - 1);
    if m > 1 {
      StaysExactly(weights, n, start, times, charge, m - 1);
      if Stays(Tokens(weights, n, start, times, charge), start.key, m - 1) {
        StayingCharges(weights, n, start, times, charge, m - 1);
      }
    }
  }

  // ---- Whole turns ----

  /** The worker picked before pick i, which is the one chosen last when there is none. */
  function PickBefore(picks: seq<nat>, start: nat, i: nat): nat
    requires i <= |picks|
  {
    if i == 0 then start else picks[i - 1]
  }

  /** The m picks from i on are all of the same worker. */
  predicate SamePicks(picks: seq<nat>, i: nat, m: nat) {
    0 < m && i + m <= |picks| && forall j :: i <= j < i + m ==> picks[j] == picks[i]
  }

  /**
    A turn of a worker lasts as long as the run times charged to it are below its weight. When the
    worker gets the token, it is charged for that pick too (own) or not.
   */
  ghost predicate TurnLasts(weights: seq<real>, picks: seq<nat>, times: seq<seq<real>>, own: bool, i: nat, m: nat)
    requires 0 < m && i + m <= |picks| == |times| && forall k :: 0 <= k < |picks| ==> picks[k] < |weights|
    requires forall j :: 0 <= j < |times| ==> |times[j]| >= |weights|
  {
    SamePicks(picks, i, m) <==> RunTimes(times, picks[i], if own then i else i + 1, i + m - 1) < weights[picks[i]]
  }

  /** The turn under way at the start, with what was charged to it before. */
  ghost predicate FirstTurnLasts(weights: seq<real>, start: Token, picks: seq<nat>, times: seq<seq<real>>, m: nat)
    requires 0 < m <= |picks| == |times| && start.key < |weights|
    requires forall j :: 0 <= j < |times| ==> |times[j]| >= |weights|
  {
    picks[0] == start.key && SamePicks(picks, 0, m)
    <==> start.runTime + RunTimes(times, start.key, 0, m - 1) < weights[start.key]
  }

  /**
    What a run of picks of a weighted rotation looks like. Each pick repeats the one before or goes to
    the next worker; the turn under way at the start goes on while its charge is below the weight; and
    every turn that begins later lasts exactly as long as TurnLasts says.
   */
  ghost predicate Turns(weights: seq<real>, start: Token, picks: seq<nat>, times: seq<seq<real>>, own: bool) {
    && |picks| == |times| && start.key < |weights|
    && (forall j :: 0 <= j < |times| ==> |times[j]| >= |weights|)
    && Rotates([start.key] + picks, |weights|)
    && (forall k :: 0 <= k < |picks| ==> picks[k] < |weights|)
    && (forall m {:trigger FirstTurnLasts(weights, start, picks, times, m)} ::
          0 < m <= |picks| ==> FirstTurnLasts(weights, start, picks, times, m))
    && forall i, m {:trigger TurnLasts(weights, picks, times, own, i, m)} :: (
         0 <= i && 0 < m && i + m <= |picks| && picks[i] != PickBefore(picks, start.key, i)
         ==> TurnLasts(weights, picks, times, own, i, m))
  }

  lemma {:induction false} RunTimesFrom(times: seq<seq<real>>, key: nat, lo: nat, m: nat)
    requires lo + m <= |times| && forall j :: 0 <= j < |times| ==> key < |times[j]|
    ensures RunTimes(times[lo..], key, 0, m) == RunTimes(times, key, lo, lo + m)
  {
    if m > 0 {
      RunTimesFrom(times, key, lo, m - 1);
    }
  }

  lemma {:induction false} RunTimesFirst(times: seq<seq<real>>, key: nat, lo: nat, hi: nat)
    requires lo < hi <= |times| && forall j :: 0 <= j < |times| ==> key < |times[j]|
    ensures RunTimes(times, key, lo, hi) == times[lo][key] + RunTimes(times, key, lo + 1, hi)
  {
    if lo + 1 < hi {
      RunTimesFirst(times, key, lo, hi - 1);
    }
  }

  /** The rest of a run is a run from the token reached. */
  lemma {:induction false} TokensFrom(weights: seq<real>, n: nat, start: Token, times: seq<seq<real>>, charge: bool,
                                      i: nat, j: nat)
    requires start.key < n <= |weights| && i + 1 + j < |times|
    requires forall j :: 0 <= j < |times| ==> |times[j]| >= n
    ensures var r := Tokens(weights, n, start, times, charge);
      Tokens(weights, n, r[i], times[i + 1..], charge)[j] == r[i + 1 + j]
    decreases j
  {
    hide Tokens, Pass;
    TokenAt(weights, n, Tokens(weights, n, start, times, charge)[i], times[i + 1..], charge, j);
    TokenAt(weights, n, start, times, charge, i + 1 + j);
    if j > 0 {
      TokensFrom(weights, n, start, times, charge, i, j - 1);
    }
  }

  /** For how many picks the token stays where it is after pick i. */
  lemma StaysFrom(weights: seq<real>, n: nat, start: Token, times: seq<seq<real>>, charge: bool, i: nat, m: nat)
    requires 2 <= n <= |weights| && start.key < n && 1 < m && i + m <= |times|
    requires forall j :: 0 <= j < |times| ==> |times[j]| >= n
    requires forall j, k :: 0 <= j < |times| && 0 <= k < n ==> 0.0 <= times[j][k]
    ensures var r := Tokens(weights, n, start, times, charge);
      SamePicks(Keys(r), i, m)
      <==> r[i].runTime + RunTimes(times, r[i].key, i + 1, i + m - 1) < weights[r[i].key]
  {
    hide Tokens, Pass, SamePicks, Stays;
    var r, rest := Tokens(weights, n, start, times, charge), times[i + 1..];
    var later := Tokens(weights, n, r[i], rest, charge);
    forall j | 0 <= j < |rest| ensures later[j] == r[i + 1 + j] {
      TokensFrom(weights, n, start, times, charge, i, j);
    }
    StaysExactly(weights, n, r[i], rest, charge, m - 1);
    RunTimesFrom(times, r[i].key, i + 1, m - 1 - 1);
    SameFrom(r, later, i, m);
  }

  /** How long a turn lasts that begins at pick i. */
  lemma NewTurn(weights: seq<real>, start: Token, times: seq<seq<real>>, charge: bool, i: nat, m: nat)
    requires 2 <= |weights| && start.key < |weights| && 0 < m && i + m <= |times|
    requires forall j :: 0 <= j < |times| ==> |times[j]| >= |weights|
    requires forall j, k :: 0 <= j < |times| && 0 <= k < |weights| ==> 0.0 <= times[j][k]
    requires forall k :: 0 <= k < |weights| ==> 0.0 < weights[k]
    requires var picks := Keys(Tokens(weights, |weights|, start, times, charge));
      picks[i] != PickBefore(picks, start.key, i)
    ensures TurnLasts(weights, Keys(Tokens(weights, |weights|, start, times, charge)), times, charge, i, m)
  {
    hide Tokens;
    var n := |weights|;
    var r := Tokens(weights, n, start, times, charge);
    TokenAt(weights, n, start, times, charge, i);
    assert r[i].runTime == if charge then times[i][r[i].key] else 0.0;
    if m > 1 {
      StaysFrom(weights, n, start, times, charge, i, m);
      if charge {
        RunTimesFirst(times, r[i].key, i, i + m - 1);
      }
    }
  }

  lemma FirstTurn(weights: seq<real>, start: Token, times: seq<seq<real>>, charge: bool, m: nat)
    requires 2 <= |weights| && start.key < |weights| && 0 < m <= |times|
    requires forall j :: 0 <= j < |times| ==> |times[j]| >= |weights|
    requires forall j, k :: 0 <= j < |times| && 0 <= k < |weights| ==> 0.0 <= times[j][k]
    ensures FirstTurnLasts(weights, start, Keys(Tokens(weights, |weights|, start, times, charge)), times, m)
  {
    hide Tokens, RunTimes;
    StaysExactly(weights, |weights|, start, times, charge, m);
    var r := Tokens(weights, |weights|, start, times, charge);
    assert forall i :: 0 <= i < m ==> Keys(r)[i] == r[i].key;
  }

  lemma SameFrom(r: seq<Token>, rest: seq<Token>, i: nat, m: nat)
    requires 1 < m && i + m <= |r| && |rest| == |r| - i - 1 && forall j :: 0 <= j < |rest| ==> rest[j] == r[i + 1 + j]
    ensures SamePicks(Keys(r), i, m) <==> Stays(rest, r[i].key, m - 1)
  {
    if Stays(rest, r[i].key, m - 1) {
      forall j | i <= j < i + m ensures Keys(r)[j] == Keys(r)[i] {
        assert j > i ==> rest[j - i - 1].key == r[i].key;
      }
    }
  }

  lemma RotatesFrom(picks: seq<nat>, n: nat, start: nat)
    requires Rotates(picks, n) && start < n
    requires picks != [] ==> picks[0] == start || picks[0] == Next(start, n)
    ensures Rotates([start] + picks, n)
  {
    var all := [start] + picks;
    forall i, j | 0 <= i && j == i + 1 < |all| ensures all[j] == all[i] || all[j] == Next(all[i], n) {
      if i > 0 {
        assert picks[i] == picks[i - 1] || picks[i] == Next(picks[i - 1], n);
      }
    }
  }

  /** The picks that the token visits are those that Turns describes. */
  lemma TokensTurn(weights: seq<real>, start: Token, times: seq<seq<real>>, charge: bool)
    requires 2 <= |weights| && start.key < |weights|
    requires forall j :: 0 <= j < |times| ==> |times[j]| >= |weights|
    requires forall j, k :: 0 <= j < |times| && 0 <= k < |weights| ==> 0.0 <= times[j][k]
    requires forall k :: 0 <= k < |weights| ==> 0.0 < weights[k]
    ensures Turns(weights, start, Keys(Tokens(weights, |weights|, start, times, charge)), times, charge)
  {
    hide Tokens, TurnLasts, FirstTurnLasts;
    var n := |weights|;
    var r := Tokens(weights, n, start, times, charge);
    var picks := Keys(r);
    TokensRotate(weights, n, start, times, charge);
    if r != [] {
      TokenAt(weights, n, start, times, charge, 0);
    }
    RotatesFrom(picks, n, start.key);
    forall m | 0 < m <= |picks| ensures FirstTurnLasts(weights, start, picks, times, m) {
      FirstTurn(weights, start, times, charge, m);
    }
    forall i: nat, m: nat | 0 < m && i + m <= |picks| && picks[i] != PickBefore(picks, start.key, i)
      ensures TurnLasts(weights, picks, times, charge, i, m)
    {
      NewTurn(weights, start, times, charge, i, m);
    }
  }

  /** Where the turn under way at pick p began: at pick i, or before the run (none). */
  lemma {:induction false} TurnBegan(picks: seq<nat>, start: nat, p: nat) returns (began: bool, i: nat)
    requires p < |picks|
    ensures i <= p && SamePicks(picks, i, p - i + 1)
    ensures if began then picks[i] != PickBefore(picks, start, i) else i == 0 && picks[0] == start
  {
    if picks[p] != PickBefore(picks, start, p) {
      began, i := true, p;
    } else if p == 0 {
      began, i := false, 0;
    } else {
      began, i := TurnBegan(picks, start, p - 1);
    }
  }

  lemma StaysInBoth(weights: seq<real>, start: Token, a: seq<nat>, b: seq<nat>,
                    times: seq<seq<real>>, own: bool, q: nat)
    requires Turns(weights, start, a, times, own) && Turns(weights, start, b, times, own)
    requires q < |times| && a[..q] == b[..q]
    ensures a[q] == PickBefore(a, start.key, q) <==> b[q] == PickBefore(b, start.key, q)
  {
    hide Rotates, RunTimes;
    if q == 0 {
      assert FirstTurnLasts(weights, start, a, times, 1);
      assert FirstTurnLasts(weights, start, b, times, 1);
    } else {
      var began, i := TurnBegan(a, start.key, q - 1);
      forall j | 0 <= j < q ensures a[j] == b[j] {
        assert a[..q][j] == b[..q][j];
      }
      assert SamePicks(a, i, q - i + 1) <==> a[q] == a[q - 1];
      assert SamePicks(b, i, q - i + 1) <==> b[q] == b[q - 1];
      if began {
        assert PickBefore(b, start.key, i) == PickBefore(a, start.key, i) && b[i] == a[i];
        assert TurnLasts(weights, a, times, own, i, q - i + 1);
        assert TurnLasts(weights, b, times, own, i, q - i + 1);
      } else {
        assert FirstTurnLasts(weights, start, a, times, q + 1);
        assert FirstTurnLasts(weights, start, b, times, q + 1);
      }
    }
  }

  /** So Turns leaves nothing open: it describes one run of picks only. */
  lemma {:induction false} TurnsDetermine(weights: seq<real>, start: Token, a: seq<nat>, b: seq<nat>,
                                          times: seq<seq<real>>, own: bool, p: nat)
    requires Turns(weights, start, a, times, own) && Turns(weights, start, b, times, own) && p <= |times|
    ensures a[..p] == b[..p]
  {
    if p > 0 {
      TurnsDetermine(weights, start, a, b, times, own, p - 1);
      var q := p - 1;
      var all, other := [start.key] + a, [start.key] + b;
      assert all[q + 1] == all[q] || all[q + 1] == Next(all[q], |weights|);
      assert other[q + 1] == other[q] || other[q + 1] == Next(other[q], |weights|);
      assert all[q] == other[q];
      StaysInBoth(weights, start, a, b, times, own, q);
      assert a == a[..q] + a[q..] && b == b[..q] + b[q..];
    }
  }
}
