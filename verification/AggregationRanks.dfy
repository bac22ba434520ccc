/** Which sources are rejected, in terms of ranks in the sorted values, and what that makes of a result. */
module AggregationRanks {
  import opened Base
  import opened Sorting
  import opened WeightedMedian
  import opened Aggregation

  // ---------------------------------------------------------------- order statistics by rank

  ghost predicate Ascending(sorted: seq<int>, values: seq<int>) {
    && (forall i, j :: 0 <= i < j < |sorted| ==> sorted[i] <= sorted[j])
    && multiset(sorted) == multiset(values)
  }

  ghost predicate Rising(sorted: seq<real>, values: seq<real>) {
    && (forall i, j :: 0 <= i < j < |sorted| ==> sorted[i] <= sorted[j])
    && multiset(sorted) == multiset(values)
  }

  /**
   * The k-th quartile: the value of rank k(n + 1)/4, counting from one, where a rank between two values takes from the
   * upper one as many quarters as it is past the lower one, and a rank past the last value takes the last.
   */
  function Quartile(sorted: seq<int>, k: nat): real
    requires |sorted| >= 3 && 1 <= k <= 3
  {
    var n := |sorted|;
    var rank, quarters := k * (n + 1) / 4, k * (n + 1) % 4;
    if rank >= n then sorted[n - 1] as real
    else ((4 - quarters) * sorted[rank - 1] + quarters * sorted[rank]) as real / 4.0
  }

  /** The median: the mean of the two middle values, which are one and the same in a list of odd length. */
  function Middle(sorted: seq<real>): real
    requires sorted != []
  {
    (sorted[(|sorted| - 1) / 2] + sorted[|sorted| / 2]) / 2.0
  }

  lemma SortIsAscending(values: seq<int>, sorted: seq<int>)
    ensures Ascending(Sort(values, IntAtMost), values)
    ensures Ascending(sorted, values) ==> sorted == Sort(values, IntAtMost)
  {
    OrdersAreTotal();
    SortSorts(values, IntAtMost);
    var own := Sort(values, IntAtMost);
    forall i, j | 0 <= i < j < |own| ensures own[i] <= own[j] {
      assert IntAtMost(own[i], own[j]);
    }
    if Ascending(sorted, values) {
      SortedUnique(sorted, own, IntAtMost);
    }
  }

  lemma SortIsRising(values: seq<real>, sorted: seq<real>)
    ensures Rising(Sort(values, RealAtMost), values)
    ensures Rising(sorted, values) ==> sorted == Sort(values, RealAtMost)
  {
    OrdersAreTotal();
    SortSorts(values, RealAtMost);
    var own := Sort(values, RealAtMost);
    forall i, j | 0 <= i < j < |own| ensures own[i] <= own[j] {
      assert RealAtMost(own[i], own[j]);
    }
    if Rising(sorted, values) {
      SortedUnique(sorted, own, RealAtMost);
    }
  }

  // Interpolating by a quarter, two or three is weighing the two values by quarters.
  lemma WeighQuarters(a: int, b: int, quarters: nat, fraction: real)
    requires quarters < 4 && fraction * 4.0 == quarters as real
    ensures a as real + fraction * (b - a) as real == ((4 - quarters) * a + quarters * b) as real / 4.0
  {
    var d := (b - a) as real;
    assert 4.0 * (fraction * d) == fraction * 4.0 * d;
    assert ((4 - quarters) * a + quarters * b) as real == 4.0 * a as real + quarters as real * d;
  }

  lemma RankParts(n: nat, k: nat, rank: real)
    requires n >= 3 && 1 <= k <= 3 && 4.0 * rank == k as real * (n + 1) as real
    ensures rank >= 1.0 && rank.Floor == k * (n + 1) / 4
    ensures (rank - rank.Floor as real) * 4.0 == (k * (n + 1) % 4) as real
    ensures rank >= n as real <==> k * (n + 1) / 4 >= n
  {
    assert 4.0 * rank == (k * (n + 1)) as real;
  }

  lemma Interpolated(sorted: seq<int>, p: real, rank: real)
    requires sorted != [] && rank >= 1.0 && rank == p / 100.0 * (|sorted| + 1) as real
    ensures rank >= |sorted| as real ==> PercentileOfSorted(sorted, p) == sorted[|sorted| - 1] as real
    ensures rank < |sorted| as real ==>
              && 1 <= rank.Floor < |sorted|
              && PercentileOfSorted(sorted, p)
                 == sorted[rank.Floor - 1] as real
                    + (rank - rank.Floor as real) * (sorted[rank.Floor] - sorted[rank.Floor - 1]) as real
  {
  }

  lemma PercentileByRank(sorted: seq<int>, k: nat, p: real)
    requires |sorted| >= 3 && 1 <= k <= 3 && p == 25.0 * k as real
    ensures PercentileOfSorted(sorted, p) == Quartile(sorted, k)
  {
    var n := |sorted|;
    var rank := p / 100.0 * (n + 1) as real;
    assert 4.0 * rank == k as real * (n + 1) as real by {
      assert p / 100.0 * 4.0 == k as real;
    }
    RankParts(n, k, rank);
    Interpolated(sorted, p, rank);
    if rank < n as real {
      WeighQuarters(sorted[rank.Floor - 1], sorted[rank.Floor], k * (n + 1) % 4, rank - rank.Floor as real);
    }
  }

  lemma MedianByRank(sorted: seq<real>)
    requires sorted != []
    ensures MedianOfSorted(sorted) == Middle(sorted)
  {
    var n := |sorted|;
    if n % 2 == 1 {
      assert (n - 1) / 2 == n / 2;
    } else {
      assert (n - 1) / 2 == n / 2 - 1;
    }
  }

  // ---------------------------------------------------------------- when a source is rejected

  function Quoted(sources: seq<PriceSource>): (values: seq<int>)
    ensures |values| == |sources|
  {
    seq(|sources|, i requires 0 <= i < |sources| => sources[i].value)
  }

  function Reals(sources: seq<PriceSource>): (values: seq<real>)
    ensures |values| == |sources|
  {
    seq(|sources|, i requires 0 <= i < |sources| => sources[i].value as real)
  }

  function Distance(a: real, b: real): real {
    if a < b then b - a else a - b
  }

  function Distances(sources: seq<PriceSource>, center: real): (values: seq<real>)
    ensures |values| == |sources|
  {
    seq(|sources|, i requires 0 <= i < |sources| => Distance(sources[i].value as real, center))
  }

  /** Further outside the quartiles than `multiplier` times their distance. */
  predicate BeyondQuartiles(sorted: seq<int>, multiplier: real, v: int)
    requires |sorted| >= 3
  {
    var q1, q3 := Quartile(sorted, 1), Quartile(sorted, 3);
    v as real < q1 - multiplier * (q3 - q1) || v as real > q3 + multiplier * (q3 - q1)
  }

  /** Further from the median than `multiplier` times the median distance, which is positive. */
  predicate FarFromMedian(sorted: seq<real>, distances: seq<real>, multiplier: real, v: int)
    requires sorted != [] && distances != []
  {
    Middle(distances) > 0.0 && Distance(v as real, Middle(sorted)) > multiplier * Middle(distances)
  }

  lemma SameLength<T>(a: seq<T>, b: seq<T>)
    requires multiset(a) == multiset(b)
    ensures |a| == |b|
  {
    assert |a| == |multiset(a)| == |multiset(b)| == |b|;
  }

  lemma QuartilesByRank(sources: seq<PriceSource>, sorted: seq<int>)
    requires |sources| >= 3 && |sorted| == |sources| && Ascending(sorted, Quoted(sources))
    ensures Percentile(Values(sources), 25.0) == Quartile(sorted, 1)
    ensures Percentile(Values(sources), 75.0) == Quartile(sorted, 3)
  {
    assert Values(sources) == Quoted(sources);
    SortIsAscending(Values(sources), sorted);
    PercentileByRank(sorted, 1, 25.0);
    PercentileByRank(sorted, 3, 75.0);
  }

  lemma OutOfBounds(q1: real, q3: real, multiplier: real, s: PriceSource)
    ensures !InBounds(LowerBound(q1, q3, multiplier), UpperBound(q1, q3, multiplier))(s)
            <==> s.value as real < q1 - multiplier * (q3 - q1) || s.value as real > q3 + multiplier * (q3 - q1)
  {
  }

  lemma IqrRejectsExactly(sources: seq<PriceSource>, multiplier: real, sorted: seq<int>, s: PriceSource)
    requires Ascending(sorted, Quoted(sources)) && |sorted| == |sources|
    ensures !IqrAccepts(sources, multiplier)(s) <==> |sources| >= 3 && BeyondQuartiles(sorted, multiplier, s.value)
  {
    if |sources| >= 3 {
      QuartilesByRank(sources, sorted);
      OutOfBounds(Quartile(sorted, 1), Quartile(sorted, 3), multiplier, s);
    }
  }

  lemma CenterByRank(sources: seq<PriceSource>, sorted: seq<real>)
    requires sources != [] && Rising(sorted, Reals(sources))
    ensures sorted != [] && Center(sources) == Middle(sorted)
  {
    SameLength(sorted, Reals(sources));
    assert Map(RealValueOf, sources) == Reals(sources);
    SortIsRising(Reals(sources), sorted);
    MedianByRank(sorted);
  }

  lemma SpreadByRank(sources: seq<PriceSource>, distances: seq<real>)
    requires sources != [] && Rising(distances, Distances(sources, Center(sources)))
    ensures distances != [] && Spread(sources) == Middle(distances)
  {
    var own := Distances(sources, Center(sources));
    SameLength(distances, own);
    assert Map(DeviationFrom(Center(sources)), sources) == own;
    SortIsRising(own, distances);
    MedianByRank(distances);
  }

  lemma MadRejectsExactly(sources: seq<PriceSource>, multiplier: real, sorted: seq<real>, distances: seq<real>,
                          s: PriceSource)
    requires sources != [] && Rising(sorted, Reals(sources)) && |sorted| == |sources|
    requires Rising(distances, Distances(sources, Middle(sorted))) && |distances| == |sources|
    ensures !MadAccepts(sources, multiplier)(s)
            <==> |sources| >= 2 && FarFromMedian(sorted, distances, multiplier, s.value)
  {
    CenterByRank(sources, sorted);
    SpreadByRank(sources, distances);
    SpreadNonNegative(sources);
  }

  // ---------------------------------------------------------------- what a result says

  /** What the configured method rejects, whichever way the values are sorted. */
  ghost predicate Outlier(config: AggregationConfig, sources: seq<PriceSource>, s: PriceSource) {
    match config.outlierMethod
    case Iqr =>
      |sources| >= 3 && exists sorted :: Ascending(sorted, Quoted(sources)) && |sorted| == |sources|
                                        && BeyondQuartiles(sorted, config.iqrMultiplier, s.value)
    case Mad =>
      |sources| >= 2 && exists sorted, distances ::
        && Rising(sorted, Reals(sources)) && |sorted| == |sources|
        && Rising(distances, Distances(sources, Middle(sorted))) && |distances| == |sources|
        && FarFromMedian(sorted, distances, config.madMultiplier, s.value)
    case NoRejection => false
  }

  lemma AcceptsExactly(config: AggregationConfig, sources: seq<PriceSource>, s: PriceSource)
    ensures Accepts(config, sources)(s) <==> !Outlier(config, sources, s)
  {
    match config.outlierMethod
    case Iqr =>
      var sorted := Sort(Quoted(sources), IntAtMost);
      SortIsAscending(Quoted(sources), sorted);
      SameLength(sorted, Quoted(sources));
      IqrRejectsExactly(sources, config.iqrMultiplier, sorted, s);
      forall other | Ascending(other, Quoted(sources)) ensures other == sorted {
        SortIsAscending(Quoted(sources), other);
      }
    case Mad =>
      if sources != [] {
        MadAcceptsExactly(sources, config.madMultiplier, s);
      }
    case NoRejection =>
  }

  lemma MadAcceptsExactly(sources: seq<PriceSource>, multiplier: real, s: PriceSource)
    requires sources != []
    ensures !MadAccepts(sources, multiplier)(s) <==>
              |sources| >= 2 && exists sorted, distances ::
                && Rising(sorted, Reals(sources)) && |sorted| == |sources|
                && Rising(distances, Distances(sources, Middle(sorted))) && |distances| == |sources|
                && FarFromMedian(sorted, distances, multiplier, s.value)
  {
    var sorted := Sort(Reals(sources), RealAtMost);
    SortIsRising(Reals(sources), sorted);
    var distances := Sort(Distances(sources, Middle(sorted)), RealAtMost);
    SortIsRising(Distances(sources, Middle(sorted)), distances);
    MadRejectsExactly(sources, multiplier, sorted, distances, s);
    forall other | Rising(other, Reals(sources)) ensures other == sorted {
      SortIsRising(Reals(sources), other);
    }
    forall other | Rising(other, Distances(sources, Middle(sorted))) ensures other == distances {
      SortIsRising(Distances(sources, Middle(sorted)), other);
    }
  }

  /** Exactly the sources that are not outliers, as often as they were passed. */
  ghost predicate Kept(config: AggregationConfig, sources: seq<PriceSource>, kept: seq<PriceSource>) {
    forall s :: multiset(kept)[s] == if Outlier(config, sources, s) then 0 else multiset(sources)[s]
  }

  lemma SplitExactly(config: AggregationConfig, sources: seq<PriceSource>)
    ensures Kept(config, sources, Accepted(config, sources))
    ensures forall id :: id in Rejected(config, sources)
                         <==> exists s :: s in sources && s.sourceId == id && Outlier(config, sources, s)
  {
    var byId := Sort(sources, IdAtMost);
    AcceptsPermuted(config, byId, sources);
    var accepts := Accepts(config, byId);
    var out := Filter(byId, Negate(accepts));
    forall s ensures multiset(Filter(byId, accepts))[s]
                     == (if Outlier(config, sources, s) then 0 else multiset(sources)[s])
                     && (s in out <==> s in sources && Outlier(config, sources, s))
    {
      AcceptsExactly(config, sources, s);
      FilterMultiset(byId, accepts, s);
      FilterMultiset(byId, Negate(accepts), s);
      assert s in out <==> multiset(out)[s] > 0;
      assert s in sources <==> multiset(sources)[s] > 0;
    }
    forall id ensures id in Rejected(config, sources)
                      <==> exists s :: s in sources && s.sourceId == id && Outlier(config, sources, s)
    {
      IdsOf(out, id);
    }
  }

  lemma IdsOf(sources: seq<PriceSource>, id: string)
    ensures id in Map(IdOf, sources) <==> exists s :: s in sources && s.sourceId == id
  {
    var ids := Map(IdOf, sources);
    if id in ids {
      var i :| 0 <= i < |ids| && ids[i] == id;
      assert sources[i] in sources;
    }
    if s :| s in sources && s.sourceId == id {
      var i :| 0 <= i < |sources| && sources[i] == s;
      assert ids[i] == id;
    }
  }

  lemma {:induction false} ValueQuoted(sources: seq<PriceSource>, id: string)
    requires id in ValuesById(sources)
    ensures exists s :: s in sources && s.sourceId == id && s.value == ValuesById(sources)[id]
  {
    var front, last := sources[..|sources| - 1], sources[|sources| - 1];
    if last.sourceId == id {
      assert last in sources;
    } else {
      ValueQuoted(front, id);
      var s :| s in front && s.sourceId == id && s.value == ValuesById(front)[id];
      assert s in sources;
    }
  }

  // A successful result is the weighted median of exactly the sources that are no outliers; their ids, values and
  // configured weights are reported, and the ids of the outliers are listed as rejected.
  lemma AggregateRejectsExactly(config: AggregationConfig, sources: seq<PriceSource>,
                                r: Result<AggregationResult, AggregationError>)
    requires Aggregates(config, sources, r) && r.Ok? && Aggregation.ValidConfig(config)
    ensures exists kept :: Kept(config, sources, kept) && config.minSources <= |kept|
              && IsWeightedMedian(kept, r.value.aggregateValue)
    ensures forall id :: id in r.value.rejectedSources
                         <==> exists s :: s in sources && s.sourceId == id && Outlier(config, sources, s)
    ensures forall id :: id in r.value.sourceValues
                         <==> exists s :: s in sources && s.sourceId == id && !Outlier(config, sources, s)
    ensures forall id :: id in r.value.sourceValues ==>
              exists s :: s in sources && s.sourceId == id && s.value == r.value.sourceValues[id]
                          && !Outlier(config, sources, s)
    ensures r.value.weightsUsed.Keys == r.value.sourceValues.Keys
    ensures forall id :: id in r.value.weightsUsed ==>
              id in config.weights && r.value.weightsUsed[id] == config.weights[id]
  {
    SplitExactly(config, sources);
    var kept := Accepted(config, sources);
    forall s ensures s in kept <==> s in sources && !Outlier(config, sources, s) {
      assert s in kept <==> multiset(kept)[s] > 0;
      assert s in sources <==> multiset(sources)[s] > 0;
    }
    ValuedIds(kept);
    forall id | id in r.value.sourceValues
      ensures exists s :: s in sources && s.sourceId == id && s.value == r.value.sourceValues[id]
                          && !Outlier(config, sources, s)
    {
      ValueQuoted(kept, id);
      var s :| s in kept && s.sourceId == id && s.value == ValuesById(kept)[id];
      assert s in sources;
    }
    forall id ensures id in r.value.sourceValues
                      <==> exists s :: s in sources && s.sourceId == id && !Outlier(config, sources, s)
    {
      if s :| s in sources && s.sourceId == id && !Outlier(config, sources, s) {
        assert s in kept;
      }
    }
    KeptIdsAreWeighted(config, sources, kept);
  }

  lemma KeptIdsAreWeighted(config: AggregationConfig, sources: seq<PriceSource>, kept: seq<PriceSource>)
    requires Aggregation.ValidConfig(config) && Ids(sources) == Configured(config)
    requires forall s :: s in kept ==> s in sources
    ensures WeightsById(config, kept).Keys == Ids(kept)
  {
    forall id | id in Ids(kept) ensures id in config.weights {
      var s :| s in kept && s.sourceId == id;
      assert s.sourceId in Ids(sources);
    }
  }
}
