/** The weighted median of price sources: oracle-bridge/oracle_bridge/aggregation.py. */
module WeightedMedian {
  import opened Base
  import opened Sorting

  datatype PriceSource = PriceSource(sourceId: string, value: int, weight: real)

  datatype AggregationError =
    | NoSources
    | WrongSources
    | TooFewSources

  /** PriceSource rejects weights that are not positive. */
  ghost predicate Weighted(sources: seq<PriceSource>) {
    forall s :: s in sources ==> s.weight > 0.0
  }

  predicate ValueAtMost(a: PriceSource, b: PriceSource) {
    a.value <= b.value
  }

  function WeightOf(s: PriceSource): real {
    s.weight
  }

  function Total(sources: seq<PriceSource>): real {
    SumBy(WeightOf, sources)
  }

  /** Weight of the sources whose value lies in [lo, hi]. */
  function Within(lo: int, hi: int): PriceSource -> real {
    (s: PriceSource) => if lo <= s.value <= hi then s.weight else 0.0
  }

  function Below(m: int): PriceSource -> real {
    (s: PriceSource) => if s.value < m then s.weight else 0.0
  }

  function UpTo(m: int): PriceSource -> real {
    (s: PriceSource) => if s.value <= m then s.weight else 0.0
  }

  /** Less than half of the weight lies below `m`, and at least half lies at or below it. */
  ghost predicate IsWeightedMedian(sources: seq<PriceSource>, m: int) {
    SumBy(Below(m), sources) < Total(sources) / 2.0 <= SumBy(UpTo(m), sources)
  }

  lemma {:induction false} TotalPositive(sources: seq<PriceSource>)
    requires Weighted(sources) && sources != []
    ensures Total(sources) > 0.0
  {
    assert sources[0] in sources;
    assert Total(sources) == sources[0].weight + Total(sources[1..]);
    if sources[1..] != [] {
      TotalPositive(sources[1..]);
    }
  }

  // The weight below the element at position `i` of a sorted list sits in front of it.
  lemma {:induction false} BelowIsInFront(sorted: seq<PriceSource>, i: nat, m: int)
    requires i <= |sorted| && Weighted(sorted)
    requires forall j :: i <= j < |sorted| ==> m <= sorted[j].value
    ensures SumBy(Below(m), sorted) <= SumBy(WeightOf, sorted[..i])
  {
    if sorted != [] {
      assert sorted[0] in sorted;
      if i == 0 {
        BelowIsInFront(sorted[1..], 0, m);
        assert sorted[1..][..0] == sorted[..0] == [];
      } else {
        BelowIsInFront(sorted[1..], i - 1, m);
        assert sorted[..i][1..] == sorted[1..][..i - 1];
      }
    }
  }

  lemma {:induction false} FrontIsUpTo(sorted: seq<PriceSource>, i: nat, m: int)
    requires i <= |sorted| && Weighted(sorted)
    requires forall j :: 0 <= j < i ==> sorted[j].value <= m
    ensures SumBy(WeightOf, sorted[..i]) <= SumBy(UpTo(m), sorted)
  {
    if sorted != [] {
      assert sorted[0] in sorted;
      if i == 0 {
        FrontIsUpTo(sorted[1..], 0, m);
        assert sorted[1..][..0] == sorted[..0] == [];
      } else {
        FrontIsUpTo(sorted[1..], i - 1, m);
        assert sorted[..i][1..] == sorted[1..][..i - 1];
      }
    }
  }

  ghost predicate Quotes(sources: seq<PriceSource>, m: int) {
    exists s :: s in sources && s.value == m
  }

  lemma MedianOfPermuted(a: seq<PriceSource>, b: seq<PriceSource>, m: int)
    requires multiset(a) == multiset(b)
    ensures IsWeightedMedian(a, m) <==> IsWeightedMedian(b, m)
  {
    SumByPermuted(WeightOf, a, b);
    SumByPermuted(Below(m), a, b);
    SumByPermuted(UpTo(m), a, b);
  }

  lemma SameElements<T>(a: seq<T>, b: seq<T>)
    requires multiset(a) == multiset(b)
    ensures forall x :: x in a <==> x in b
  {
    forall x ensures x in a <==> x in b {
      assert x in multiset(a) <==> x in multiset(b);
    }
  }

  lemma CrossingIsMedian(sources: seq<PriceSource>, sorted: seq<PriceSource>, i: nat)
    requires Weighted(sources) && multiset(sorted) == multiset(sources) && SortedBy(sorted, ValueAtMost)
    requires i < |sorted|
    requires SumBy(WeightOf, sorted[..i]) < Total(sorted) / 2.0 <= SumBy(WeightOf, sorted[..i + 1])
    ensures IsWeightedMedian(sources, sorted[i].value) && Quotes(sources, sorted[i].value)
  {
    SameElements(sorted, sources);
    var m := sorted[i].value;
    assert sorted[i] in sources;
    forall j | 0 <= j < |sorted| ensures (j <= i ==> sorted[j].value <= m) && (j >= i ==> m <= sorted[j].value) {
      assert j < i ==> ValueAtMost(sorted[j], sorted[i]);
      assert j > i ==> ValueAtMost(sorted[i], sorted[j]);
    }
    BelowIsInFront(sorted, i, m);
    FrontIsUpTo(sorted, i + 1, m);
    MedianOfPermuted(sorted, sources, m);
  }

  /** The accumulation loop. It always stops at a source: running off the end is impossible. */
  method FindCrossing(sorted: seq<PriceSource>) returns (i: nat)
    requires Total(sorted) > 0.0
    ensures i < |sorted|
    ensures SumBy(WeightOf, sorted[..i]) < Total(sorted) / 2.0 <= SumBy(WeightOf, sorted[..i + 1])
  {
    var total, cumulative := Total(sorted), 0.0;
    i := 0;
    while i < |sorted|
      invariant i <= |sorted| && (i == |sorted| ==> sorted[..i] == sorted)
      invariant cumulative == SumBy(WeightOf, sorted[..i]) < total / 2.0
    {
      assert sorted[..i + 1] == sorted[..i] + [sorted[i]];
      SumBySnoc(WeightOf, sorted[..i], sorted[i]);
      cumulative := cumulative + sorted[i].weight;
      if cumulative >= total / 2.0 {
        return;
      }
      i := i + 1;
    }
    assert false;
  }

  method Compute(sources: seq<PriceSource>) returns (r: Result<int, AggregationError>)
    requires Weighted(sources)
    ensures sources == [] ==> r == Err(NoSources)
    ensures sources != [] ==> r.Ok? && IsWeightedMedian(sources, r.value) && Quotes(sources, r.value)
  {
    if sources == [] {
      return Err(NoSources);
    }
    var sorted := Sort(sources, ValueAtMost);
    SortSorts(sources, ValueAtMost);
    SumByPermuted(WeightOf, sorted, sources);
    TotalPositive(sources);
    var i := FindCrossing(sorted);
    CrossingIsMedian(sources, sorted, i);
    return Ok(sorted[i].value);
  }

  // ---------------------------------------------------------------- what the median means

  lemma MedianUnique(sources: seq<PriceSource>, m: int, n: int)
    requires Weighted(sources) && IsWeightedMedian(sources, m) && IsWeightedMedian(sources, n)
    ensures m == n
  {
    if m < n {
      SumByAtMost(UpTo(m), Below(n), sources);
    } else if n < m {
      SumByAtMost(UpTo(n), Below(m), sources);
    }
  }

  // It does not depend on the order of the sources.
  lemma MedianOrderIrrelevant(a: seq<PriceSource>, b: seq<PriceSource>, m: int, n: int)
    requires Weighted(a) && multiset(a) == multiset(b)
    requires IsWeightedMedian(a, m) && IsWeightedMedian(b, n)
    ensures m == n
  {
    MedianOfPermuted(a, b, n);
    MedianUnique(a, m, n);
  }

  // Sources holding more than half of the weight pin the median inside their interval.
  lemma MajorityPinsMedian(sources: seq<PriceSource>, m: int, lo: int, hi: int)
    requires Weighted(sources) && IsWeightedMedian(sources, m)
    requires SumBy(Within(lo, hi), sources) > Total(sources) / 2.0
    ensures lo <= m <= hi
  {
    if m < lo {
      var outside := (s: PriceSource) => if lo <= s.value <= hi then 0.0 else s.weight;
      SumByAdds(Within(lo, hi), outside, WeightOf, sources);
      SumByAtMost(UpTo(m), outside, sources);
    } else if hi < m {
      SumByAtMost(Within(lo, hi), Below(m), sources);
    }
  }

  function Gap(a: real, b: real): real {
    if a < b then b - a else a - b
  }

  function Distance(x: real): PriceSource -> real {
    (s: PriceSource) => s.weight * Gap(s.value as real, x)
  }

  /** The weighted sum of absolute deviations from `x`. */
  function Deviation(sources: seq<PriceSource>, x: real): real {
    SumBy(Distance(x), sources)
  }

  /** By how much a source pulls back a point that moves right of `m`, per unit of the step. */
  function PullRight(m: int): PriceSource -> real {
    (s: PriceSource) => 2.0 * UpTo(m)(s) - s.weight
  }

  function PullLeft(m: int): PriceSource -> real {
    (s: PriceSource) => s.weight - 2.0 * Below(m)(s)
  }

  lemma ScaleReal(a: real, b: real, w: real)
    requires a <= b && w >= 0.0
    ensures w * a <= w * b
  {
  }

  lemma ScaleSlope(w: real, before: real, k: real, slope: real)
    requires slope == 1.0 || slope == -1.0
    ensures w * (before + k * slope) == w * before + k * (w * slope)
    ensures w * slope == if slope == 1.0 then w else -w
  {
    if slope == 1.0 {
      assert w * (before + k) == w * before + w * k;
    } else {
      assert w * (before - k) == w * before - w * k;
    }
  }

  lemma DistanceToTheRight(s: PriceSource, m: int, x: real, k: real)
    requires s.weight > 0.0 && k == x - m as real && k >= 0.0
    ensures Distance(x)(s) >= Distance(m as real)(s) + k * PullRight(m)(s)
  {
    var v, c := s.value as real, m as real;
    var before, after := Gap(v, c), Gap(v, x);
    var slope := if s.value <= m then 1.0 else -1.0;
    assert after >= before + k * slope;
    ScaleReal(before + k * slope, after, s.weight);
    ScaleSlope(s.weight, before, k, slope);
    assert Distance(x)(s) == s.weight * after && Distance(c)(s) == s.weight * before;
    assert UpTo(m)(s) == if s.value <= m then s.weight else 0.0;
    assert PullRight(m)(s) == 2.0 * UpTo(m)(s) - s.weight == s.weight * slope;
  }

  lemma DistanceToTheLeft(s: PriceSource, m: int, x: real, k: real)
    requires s.weight > 0.0 && k == m as real - x && k >= 0.0
    ensures Distance(x)(s) >= Distance(m as real)(s) + k * PullLeft(m)(s)
  {
    var v, c := s.value as real, m as real;
    var before, after := Gap(v, c), Gap(v, x);
    var slope := if s.value < m then -1.0 else 1.0;
    assert after >= before + k * slope;
    ScaleReal(before + k * slope, after, s.weight);
    ScaleSlope(s.weight, before, k, slope);
    assert Distance(x)(s) == s.weight * after && Distance(c)(s) == s.weight * before;
    assert Below(m)(s) == if s.value < m then s.weight else 0.0;
    assert PullLeft(m)(s) == s.weight - 2.0 * Below(m)(s) == s.weight * slope;
  }

  // Two slopes over the same step add up.
  lemma AddSlopes(k: real, d: real, before: real, a: real, e: real, earlier: real, b: real, sum: real)
    requires d >= before + k * a && e >= earlier + k * b && sum == a + b
    ensures d + e >= before + earlier + k * sum
  {
    assert k * (a + b) == k * a + k * b;
  }

  // A function that lies above another one plus a slope does so summed up.
  lemma {:induction false} SumByAbove<T>(f: T -> real, g: T -> real, k: real, slope: T -> real, xs: seq<T>)
    requires forall x :: x in xs ==> f(x) >= g(x) + k * slope(x)
    ensures SumBy(f, xs) >= SumBy(g, xs) + k * SumBy(slope, xs)
  {
    if xs != [] {
      var x, rest := xs[0], xs[1..];
      assert x in xs;
      SumByAbove(f, g, k, slope, rest);
      AddSlopes(k, f(x), g(x), slope(x), SumBy(f, rest), SumBy(g, rest), SumBy(slope, rest), SumBy(slope, xs));
    }
  }

  lemma DeviationToTheRight(sources: seq<PriceSource>, m: int, x: real, k: real)
    requires Weighted(sources) && k == x - m as real && k >= 0.0
    ensures Deviation(sources, x) >= Deviation(sources, m as real) + k * SumBy(PullRight(m), sources)
  {
    forall s | s in sources ensures Distance(x)(s) >= Distance(m as real)(s) + k * PullRight(m)(s) {
      DistanceToTheRight(s, m, x, k);
    }
    SumByAbove(Distance(x), Distance(m as real), k, PullRight(m), sources);
  }

  lemma DeviationToTheLeft(sources: seq<PriceSource>, m: int, x: real, k: real)
    requires Weighted(sources) && k == m as real - x && k >= 0.0
    ensures Deviation(sources, x) >= Deviation(sources, m as real) + k * SumBy(PullLeft(m), sources)
  {
    forall s | s in sources ensures Distance(x)(s) >= Distance(m as real)(s) + k * PullLeft(m)(s) {
      DistanceToTheLeft(s, m, x, k);
    }
    SumByAbove(Distance(x), Distance(m as real), k, PullLeft(m), sources);
  }

  lemma {:induction false} PullsAddUp(sources: seq<PriceSource>, m: int)
    ensures SumBy(PullRight(m), sources) == 2.0 * SumBy(UpTo(m), sources) - Total(sources)
    ensures SumBy(PullLeft(m), sources) == Total(sources) - 2.0 * SumBy(Below(m), sources)
  {
    if sources != [] {
      PullsAddUp(sources[1..], m);
    }
  }

  lemma UpTheSlope(d: real, before: real, k: real, a: real)
    requires d >= before + k * a && k >= 0.0 && a >= 0.0
    ensures before <= d
  {
    ScaleReal(0.0, a, k);
  }

  // No other point, integer or not, has a smaller weighted sum of absolute deviations.
  lemma MedianMinimises(sources: seq<PriceSource>, m: int, x: real)
    requires Weighted(sources) && IsWeightedMedian(sources, m)
    ensures Deviation(sources, m as real) <= Deviation(sources, x)
  {
    PullsAddUp(sources, m);
    var k := x - m as real;
    if k >= 0.0 {
      DeviationToTheRight(sources, m, x, k);
      UpTheSlope(Deviation(sources, x), Deviation(sources, m as real), k, SumBy(PullRight(m), sources));
    } else {
      DeviationToTheLeft(sources, m, x, -k);
      UpTheSlope(Deviation(sources, x), Deviation(sources, m as real), -k, SumBy(PullLeft(m), sources));
    }
  }
}
