/**
  Measurement statistics: average, median, min and max (src/utils.ts) and the statistics that each
  task updates (src/pools/utils.ts), over real numbers.
 */
module Statistics {
  import opened Wrappers
  import opened CircularArrays

  // ---- min and max, with the infinities they start from ----

  datatype Number = NegativeInfinity | Finite(value: real) | Infinity

  predicate Less(a: Number, b: Number) {
    match (a, b)
    case (Finite(x), Finite(y)) => x < y
    case (NegativeInfinity, _) => b != NegativeInfinity
    case (_, Infinity) => a != Infinity
    case _ => false
  }

  function Min(args: seq<Number>): (r: Number)
    ensures forall i :: 0 <= i < |args| ==> !Less(args[i], r)
    ensures r in args || (r == Infinity && args == [])
  {
    if args == [] then Infinity
    else
      var minimum, num := Min(args[..|args| - 1]), args[|args| - 1];
      if Less(minimum, num) then minimum else num
  }

  function Max(args: seq<Number>): (r: Number)
    ensures forall i :: 0 <= i < |args| ==> !Less(r, args[i])
    ensures r in args || (r == NegativeInfinity && args == [])
  {
    if args == [] then NegativeInfinity
    else
      var maximum, num := Max(args[..|args| - 1]), args[|args| - 1];
      if Less(num, maximum) then maximum else num
  }

  // ---- average ----

  function Sum(s: seq<real>): real {
    if s == [] then 0.0 else Sum(s[..|s| - 1]) + s[|s| - 1]
  }

  function Average(s: seq<real>): real {
    if |s| == 0 then 0.0
    else if |s| == 1 then s[0]
    else Sum(s) / |s| as real
  }

  predicate Within(low: real, s: seq<real>, high: real) {
    forall i :: 0 <= i < |s| ==> low <= s[i] <= high
  }

  lemma {:induction false} SumWithin(low: real, s: seq<real>, high: real)
    requires Within(low, s, high)
    ensures low * |s| as real <= Sum(s) <= high * |s| as real
  {
    if s != [] {
      var front := s[..|s| - 1];
      SumWithin(low, front, high);
      assert low * |s| as real == low * |front| as real + low;
      assert high * |s| as real == high * |front| as real + high;
    }
  }

  /** The average is the number that adds up to the same sum, and lies between any bounds of the data. */
  lemma AverageIsMean(low: real, s: seq<real>, high: real)
    requires s != [] && Within(low, s, high)
    ensures Average(s) * |s| as real == Sum(s)
    ensures low <= Average(s) <= high
  {
    var n := |s| as real;
    if |s| == 1 {
      assert Sum(s[..0]) == 0.0;
    } else {
      SumWithin(low, s, high);
      Divided(low, Sum(s), high, n);
    }
  }

  lemma Divided(low: real, sum: real, high: real, n: real)
    requires n > 0.0 && low * n <= sum <= high * n
    ensures low <= sum / n <= high && sum / n * n == sum
  {
    var mean := sum / n;
    assert mean * n == sum;
    if mean < low {
      ProductIsPositive(low - mean, n);
    }
    if mean > high {
      ProductIsPositive(mean - high, n);
    }
  }

  lemma ProductIsPositive(x: real, y: real)
    requires x > 0.0 && y > 0.0
    ensures x * y > 0.0
  {
  }

  // ---- median ----

  function Insert(x: real, s: seq<real>): (r: seq<real>)
    ensures |r| == |s| + 1
  {
    if s == [] || s[|s| - 1] <= x then s + [x] else Insert(x, s[..|s| - 1]) + [s[|s| - 1]]
  }

  /** A sorted copy. */
  function Sorted(s: seq<real>): (r: seq<real>)
    ensures |r| == |s|
  {
    if s == [] then [] else Insert(s[|s| - 1], Sorted(s[..|s| - 1]))
  }

  predicate Ascending(s: seq<real>) {
    forall i, j :: 0 <= i < j < |s| ==> s[i] <= s[j]
  }

  lemma {:induction false} InsertAscends(x: real, s: seq<real>)
    requires Ascending(s)
    ensures Ascending(Insert(x, s))
    ensures multiset(Insert(x, s)) == multiset(s) + multiset{x}
  {
    if s != [] && s[|s| - 1] > x {
      var front, last := s[..|s| - 1], s[|s| - 1];
      InsertAscends(x, front);
      assert s == front + [last];
      AppendAscends(Insert(x, front), last, multiset(front) + multiset{x});
    }
  }

  lemma AppendAscends(s: seq<real>, last: real, items: multiset<real>)
    requires Ascending(s) && multiset(s) == items && forall y :: y in items ==> y <= last
    ensures Ascending(s + [last])
  {
    forall i | 0 <= i < |s| ensures s[i] <= last {
      assert s[i] in multiset(s);
    }
  }

  lemma {:induction false} SortedAscends(s: seq<real>)
    ensures Ascending(Sorted(s)) && multiset(Sorted(s)) == multiset(s)
  {
    if s != [] {
      var front := s[..|s| - 1];
      SortedAscends(front);
      InsertAscends(s[|s| - 1], Sorted(front));
      assert s == front + [s[|s| - 1]];
    }
  }

  function Median(s: seq<real>): real {
    if |s| == 0 then 0.0
    else if |s| == 1 then s[0]
    else (Sorted(s)[(|s| - 1) / 2] + Sorted(s)[|s| / 2]) / 2.0
  }

  lemma LastIsMost(s: seq<real>, x: real)
    requires Ascending(s) && x in multiset(s)
    ensures s != [] && x <= s[|s| - 1]
  {
    var i :| 0 <= i < |s| && s[i] == x;
  }

  lemma WithoutLast(s: seq<real>)
    requires s != []
    ensures s[|s| - 1] in multiset(s) && multiset(s[..|s| - 1]) == multiset(s) - multiset{s[|s| - 1]}
  {
    assert s == s[..|s| - 1] + [s[|s| - 1]];
  }

  lemma SameLast(a: seq<real>, b: seq<real>)
    requires Ascending(a) && Ascending(b) && multiset(a) == multiset(b) && a != []
    ensures b != [] && a[|a| - 1] == b[|b| - 1]
    ensures multiset(a[..|a| - 1]) == multiset(b[..|b| - 1])
  {
    hide Ascending;
    WithoutLast(a);
    LastIsMost(b, a[|a| - 1]);
    WithoutLast(b);
    LastIsMost(a, b[|b| - 1]);
  }

  /** There is only one way to put the same values in ascending order. */
  lemma {:induction false} AscendingUnique(a: seq<real>, b: seq<real>)
    requires Ascending(a) && Ascending(b) && multiset(a) == multiset(b)
    ensures a == b
    decreases |a|
  {
    if a == [] {
      assert |b| == |multiset(b)|;
    } else {
      SameLast(a, b);
      AscendingUnique(a[..|a| - 1], b[..|b| - 1]);
      assert a == a[..|a| - 1] + [a[|a| - 1]] && b == b[..|b| - 1] + [b[|b| - 1]];
    }
  }

  /** Twice the median is the sum of the two middle values, which are one and the same if the number is odd. */
  lemma MedianOfMiddle(s: seq<real>, t: seq<real>)
    requires s != [] && Ascending(t) && multiset(t) == multiset(s)
    ensures |t| == |s| && 2.0 * Median(s) == t[(|s| - 1) / 2] + t[|s| / 2]
  {
    hide Sorted;
    SortedAscends(s);
    AscendingUnique(Sorted(s), t);
    if |s| == 1 {
      assert s[0] in multiset(t);
    }
  }

  function CountAtMost(s: seq<real>, m: real): nat {
    if s == [] then 0 else CountAtMost(s[..|s| - 1], m) + if s[|s| - 1] <= m then 1 else 0
  }

  function CountAtLeast(s: seq<real>, m: real): nat {
    if s == [] then 0 else CountAtLeast(s[..|s| - 1], m) + if s[|s| - 1] >= m then 1 else 0
  }

  lemma {:induction false} InsertCounts(x: real, s: seq<real>, m: real)
    ensures CountAtMost(Insert(x, s), m) == CountAtMost(s, m) + if x <= m then 1 else 0
    ensures CountAtLeast(Insert(x, s), m) == CountAtLeast(s, m) + if x >= m then 1 else 0
  {
    if s == [] || s[|s| - 1] <= x {
      assert (s + [x])[..|s|] == s;
    } else {
      var front := s[..|s| - 1];
      InsertCounts(x, front, m);
      assert (Insert(x, front) + [s[|s| - 1]])[..|s|] == Insert(x, front);
    }
  }

  lemma {:induction false} SortedCounts(s: seq<real>, m: real)
    ensures CountAtMost(Sorted(s), m) == CountAtMost(s, m)
    ensures CountAtLeast(Sorted(s), m) == CountAtLeast(s, m)
  {
    if s != [] {
      var front := s[..|s| - 1];
      SortedCounts(front, m);
      InsertCounts(s[|s| - 1], Sorted(front), m);
    }
  }

  /** In sorted data, those up to position k are at most m, and those from position k on at least m. */
  lemma {:induction false} CountsSorted(s: seq<real>, m: real, j: nat, k: nat)
    requires Ascending(s)
    requires j <= |s| && (j > 0 ==> s[j - 1] <= m)
    requires k <= |s| && (k < |s| ==> m <= s[k])
    ensures CountAtMost(s, m) >= j && CountAtLeast(s, m) >= |s| - k
  {
    if s != [] {
      var last := |s| - 1;
      CountsSorted(s[..last], m, if j == |s| then last else j, if k == |s| then last else k);
    }
  }

  /**
    The median does what it is for: at least half of the data is at most the median, at least half
    is at least the median; and it lies between any bounds of the data.
   */
  lemma MedianSplits(low: real, s: seq<real>, high: real)
    requires s != [] && Within(low, s, high)
    ensures 2 * CountAtMost(s, Median(s)) >= |s| && 2 * CountAtLeast(s, Median(s)) >= |s|
    ensures low <= Median(s) <= high
  {
    hide Median, Sorted, CountAtMost, CountAtLeast;
    var t, m := Sorted(s), Median(s);
    SortedAscends(s);
    MedianInMiddle(s);
    CountsSorted(t, m, (|s| - 1) / 2 + 1, |s| / 2);
    SortedCounts(s, m);
  }

  lemma MedianInMiddle(s: seq<real>)
    requires s != []
    ensures var a, b := Sorted(s)[(|s| - 1) / 2], Sorted(s)[|s| / 2];
      a in s && b in s && a <= Median(s) <= b
  {
    hide Sorted;
    var t := Sorted(s);
    var a, b := (|s| - 1) / 2, |s| / 2;
    SortedAscends(s);
    SortedMember(s, a);
    SortedMember(s, b);
    assert t[a] <= t[b];
  }

  lemma SortedMember(s: seq<real>, i: nat)
    requires i < |s|
    ensures Sorted(s)[i] in s
  {
    hide Sorted;
    SortedAscends(s);
    assert Sorted(s)[i] in multiset(Sorted(s));
  }

  // ---- Measurements ----

  datatype Requirements = Requirements(aggregate: bool, average: bool, median: bool)

  function Numbers(s: seq<real>): (r: seq<Number>)
    ensures |r| == |s| && forall i :: 0 <= i < |s| ==> r[i] == Finite(s[i])
  {
    seq(|s|, i requires 0 <= i < |s| => Finite(s[i]))
  }

  class MeasurementStatistics {
    var aggregate: Option<real>
    var minimum: Option<Number>
    var maximum: Option<Number>
    var average: Option<real>
    var median: Option<real>
    const history: CircularArray<real>

    ghost predicate Valid()
      reads this, history
    {
      history.Valid() && history.size == DEFAULT_CIRCULAR_ARRAY_SIZE
    }

    /** The statistics are those of the given measurements, all taken under the same requirements. */
    ghost predicate Measured(r: Requirements, values: seq<real>)
      reads this, history
    {
      var measured := r.aggregate && values != [];
      && aggregate == (if measured then Some(Sum(values)) else None)
      && minimum == (if measured then Some(Min(Numbers(values))) else None)
      && maximum == (if measured then Some(Max(Numbers(values))) else None)
      && history.items == (if r.aggregate && (r.average || r.median) then Last(history.size, values) else [])
      && average == (if measured && r.average then Some(Average(history.items)) else None)
      && median == (if measured && r.median then Some(Median(history.items)) else None)
    }

    constructor ()
      ensures Valid() && fresh(history) && forall r: Requirements :: Measured(r, [])
    {
      aggregate, minimum, maximum, average, median := None, None, None, None, None;
      history := new CircularArray(DEFAULT_CIRCULAR_ARRAY_SIZE, []);
    }

    /** The values measured before, if all under these requirements, are ghost arguments. */
    method Update(r: Requirements, measurementValue: real, ghost values: seq<real>)
      requires Valid()
      modifies this, history
      ensures Valid()
      ensures old(Measured(r, values)) ==> Measured(r, values + [measurementValue])
      ensures !r.aggregate ==>
        && aggregate == old(aggregate) && minimum == old(minimum) && maximum == old(maximum)
        && average == old(average) && median == old(median) && history.items == old(history.items)
      ensures r.aggregate && r.average ==> average == Some(Average(history.items))
      ensures r.aggregate && r.median ==> median == Some(Median(history.items))
      ensures r.aggregate && (r.average != r.median) ==> (if r.average then median else average) == None
    {
      hide Sum, Min, Max, Numbers, Average, Median, Last;
      OneMore(values, measurementValue, history.size);
      if r.aggregate {
        aggregate := Some((if aggregate.Some? then aggregate.value else 0.0) + measurementValue);
        minimum := Some(Min([Finite(measurementValue), if minimum.Some? then minimum.value else Infinity]));
        maximum := Some(Max([Finite(measurementValue), if maximum.Some? then maximum.value else NegativeInfinity]));
        if r.average || r.median {
          var _ := history.Push([measurementValue]);
          if r.average {
            average := Some(Average(history.items));
          } else if average.Some? {
            average := None;
          }
          if r.median {
            median := Some(Median(history.items));
          } else if median.Some? {
            median := None;
          }
        }
      }
    }
  }

  lemma MinAndMaxOfTwo(a: Number, b: Number)
    ensures Min([a, b]) == if Less(a, b) then a else b
    ensures Max([a, b]) == if Less(b, a) then a else b
  {
    assert [a, b][..1] == [a] && [a][..0] == [];
  }

  lemma OneMore(values: seq<real>, v: real, size: nat)
    ensures Sum(values + [v]) == (if values == [] then 0.0 else Sum(values)) + v
    ensures Min(Numbers(values + [v])) == Min([Finite(v), if values == [] then Infinity else Min(Numbers(values))])
    ensures Max(Numbers(values + [v])) ==
            Max([Finite(v), if values == [] then NegativeInfinity else Max(Numbers(values))])
    ensures Last(size, Last(size, values) + [v]) == Last(size, values + [v])
  {
    assert (values + [v])[..|values|] == values;
    var numbers := Numbers(values);
    assert Numbers(values + [v]) == numbers + [Finite(v)] && (numbers + [Finite(v)])[..|values|] == numbers;
    MinAndMaxOfTwo(Finite(v), if values == [] then Infinity else Min(numbers));
    MinAndMaxOfTwo(Finite(v), if values == [] then NegativeInfinity else Max(numbers));
    LastOfLast(size, values, [v]);
  }

  /** Whatever was measured, the average and the median of the window lie between minimum and maximum. */
  lemma BetweenExtremes(m: MeasurementStatistics, r: Requirements, values: seq<real>)
    requires m.Valid() && m.Measured(r, values) && r.aggregate && values != []
    ensures m.minimum.Some? && m.minimum.value.Finite? && m.maximum.Some? && m.maximum.value.Finite?
    ensures Within(m.minimum.value.value, values, m.maximum.value.value)
    ensures r.average ==> m.average.Some? && m.minimum.value.value <= m.average.value <= m.maximum.value.value
    ensures r.median ==> m.median.Some? && m.minimum.value.value <= m.median.value <= m.maximum.value.value
  {
    var numbers := Numbers(values);
    assert numbers[0] in numbers;
    var low, high := Min(numbers), Max(numbers);
    forall i | 0 <= i < |values| ensures low.value <= values[i] <= high.value {
      assert numbers[i] in numbers;
    }
    var window := Last(m.history.size, values);
    AverageIsMean(low.value, window, high.value);
    MedianSplits(low.value, window, high.value);
  }
}
