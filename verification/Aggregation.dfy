/** Outlier rejection and aggregation of price sources: oracle-bridge/oracle_bridge/aggregation.py. */
module Aggregation {
  import opened Base
  import opened Sorting
  import opened WeightedMedian
  import Strings

  datatype OutlierMethod = Iqr | Mad | NoRejection

  datatype AggregationConfig = AggregationConfig(
    sources: seq<string>,
    weights: map<string, real>,
    outlierMethod: OutlierMethod,
    iqrMultiplier: real,
    madMultiplier: real,
    minSources: nat)

  datatype AggregationResult = AggregationResult(
    aggregateValue: int,
    sourceValues: map<string, int>,
    weightsUsed: map<string, real>,
    rejectedSources: seq<string>)

  // ---------------------------------------------------------------- order statistics

  predicate IntAtMost(a: int, b: int) {
    a <= b
  }

  predicate RealAtMost(a: real, b: real) {
    a <= b
  }

  function ValueOf(s: PriceSource): int {
    s.value
  }

  function Values(sources: seq<PriceSource>): seq<int> {
    Map(ValueOf, sources)
  }

  // The source's extra branch for an upper index past the end can never be taken.
  lemma UpperIndexInRange(rank: real, n: nat)
    requires 1.0 <= rank < n as real
    ensures 0 <= rank.Floor - 1 && rank.Floor - 1 + 1 < n
  {
  }

  /** Linear interpolation between closest ranks, on an already sorted list. */
  function PercentileOfSorted(sorted: seq<int>, p: real): real
    requires sorted != []
  {
    var n := |sorted|;
    var rank := p / 100.0 * (n + 1) as real;
    if rank < 1.0 then sorted[0] as real
    else if rank >= n as real then sorted[n - 1] as real
    else
      UpperIndexInRange(rank, n);
      var lower := rank.Floor - 1;
      var fraction := rank - (lower + 1) as real;
      sorted[lower] as real + fraction * (sorted[lower + 1] - sorted[lower]) as real
  }

  function Percentile(values: seq<int>, p: real): real
    requires values != []
  {
    PercentileOfSorted(Sort(values, IntAtMost), p)
  }

  /** statistics.median on an already sorted list. */
  function MedianOfSorted(sorted: seq<real>): real
    requires sorted != []
  {
    var n := |sorted|;
    if n % 2 == 1 then sorted[n / 2] else (sorted[n / 2 - 1] + sorted[n / 2]) / 2.0
  }

  function Median(values: seq<real>): real
    requires values != []
  {
    MedianOfSorted(Sort(values, RealAtMost))
  }

  // ---------------------------------------------------------------- which sources each method accepts

  function RealAbs(x: real): real {
    if x < 0.0 then -x else x
  }

  function InBounds(lower: real, upper: real): PriceSource -> bool {
    (s: PriceSource) => lower <= s.value as real <= upper
  }

  function All(): PriceSource -> bool {
    (s: PriceSource) => true
  }

  function LowerBound(q1: real, q3: real, multiplier: real): real {
    q1 - multiplier * (q3 - q1)
  }

  function UpperBound(q1: real, q3: real, multiplier: real): real {
    q3 + multiplier * (q3 - q1)
  }

  function IqrAccepts(sources: seq<PriceSource>, multiplier: real): PriceSource -> bool {
    if |sources| <= 2 then All()
    else
      var q1, q3 := Percentile(Values(sources), 25.0), Percentile(Values(sources), 75.0);
      InBounds(LowerBound(q1, q3, multiplier), UpperBound(q1, q3, multiplier))
  }

  function RealValueOf(s: PriceSource): real {
    s.value as real
  }

  function DeviationFrom(center: real): PriceSource -> real {
    (s: PriceSource) => RealAbs(s.value as real - center)
  }

  function Center(sources: seq<PriceSource>): real
    requires sources != []
  {
    Median(Map(RealValueOf, sources))
  }

  function Spread(sources: seq<PriceSource>): real
    requires sources != []
  {
    Median(Map(DeviationFrom(Center(sources)), sources))
  }

  function NearCenter(center: real, threshold: real): PriceSource -> bool {
    (s: PriceSource) => RealAbs(s.value as real - center) <= threshold
  }

  function Threshold(multiplier: real, spread: real): real {
    multiplier * spread
  }

  function MadAccepts(sources: seq<PriceSource>, multiplier: real): PriceSource -> bool {
    if |sources| <= 1 || Spread(sources) == 0.0 then All()
    else NearCenter(Center(sources), Threshold(multiplier, Spread(sources)))
  }

  function Accepts(config: AggregationConfig, sources: seq<PriceSource>): PriceSource -> bool {
    match config.outlierMethod
    case Iqr => IqrAccepts(sources, config.iqrMultiplier)
    case Mad => MadAccepts(sources, config.madMultiplier)
    case NoRejection => All()
  }

  // ---------------------------------------------------------------- at least half survive

  lemma OrdersAreTotal()
    ensures TotalOrder(IntAtMost) && TotalOrder(RealAtMost)
  {
  }

  lemma {:induction false} FilterOfMap<T, U>(f: T -> U, xs: seq<T>, p: U -> bool, q: T -> bool)
    requires forall x :: x in xs ==> (q(x) <==> p(f(x)))
    ensures |Filter(Map(f, xs), p)| == |Filter(xs, q)|
  {
    if xs != [] {
      assert xs[0] in xs;
      assert Map(f, xs)[1..] == Map(f, xs[1..]);
      FilterOfMap(f, xs[1..], p, q);
    }
  }

  lemma Between(a: int, b: int, fraction: real)
    requires a <= b && 0.0 <= fraction <= 1.0
    ensures a as real <= a as real + fraction * (b - a) as real <= b as real
  {
    var d := (b - a) as real;
    assert 0.0 <= fraction * d <= d;
  }

  // An interpolated percentile lies between the two values it interpolates.
  lemma Interpolates(sorted: seq<int>, p: real, lower: int)
    requires SortedBy(sorted, IntAtMost) && sorted != []
    requires var rank := p / 100.0 * (|sorted| + 1) as real;
             1.0 <= rank < |sorted| as real && lower == rank.Floor - 1
    ensures 0 <= lower < |sorted| - 1
    ensures sorted[lower] as real <= PercentileOfSorted(sorted, p) <= sorted[lower + 1] as real
    ensures p / 100.0 * (|sorted| + 1) as real == (lower + 1) as real ==>
              PercentileOfSorted(sorted, p) == sorted[lower] as real
  {
    var rank := p / 100.0 * (|sorted| + 1) as real;
    assert IntAtMost(sorted[lower], sorted[lower + 1]);
    Between(sorted[lower], sorted[lower + 1], rank - (lower + 1) as real);
  }

  lemma AtMostLater(sorted: seq<int>, i: nat, j: nat)
    requires SortedBy(sorted, IntAtMost) && i <= j < |sorted|
    ensures sorted[i] <= sorted[j]
  {
    assert i < j ==> IntAtMost(sorted[i], sorted[j]);
  }

  // The rank of a quartile and the index below it.
  lemma QuartileRank(n: nat, quarters: nat, rank: real)
    requires n >= 3 && 1 <= quarters <= 3 && 4.0 * rank == quarters as real * (n + 1) as real
    ensures rank >= 1.0 && rank.Floor == quarters * (n + 1) / 4
    ensures rank == rank.Floor as real <==> quarters * (n + 1) % 4 == 0
  {
    assert 4.0 * rank == (quarters * (n + 1)) as real;
  }

  // The quartiles lie outside the middle half of the sorted values.
  lemma LowerQuartile(sorted: seq<int>, i: nat)
    requires SortedBy(sorted, IntAtMost) && |sorted| >= 3
    requires (|sorted| + 4) / 4 - 1 <= i < |sorted|
    ensures PercentileOfSorted(sorted, 25.0) <= sorted[i] as real
  {
    var n := |sorted|;
    var rank := 25.0 / 100.0 * (n + 1) as real;
    QuartileRank(n, 1, rank);
    var lower := rank.Floor - 1;
    Interpolates(sorted, 25.0, lower);
    if (n + 1) % 4 == 0 {
      AtMostLater(sorted, lower, i);
    } else {
      AtMostLater(sorted, lower + 1, i);
    }
  }

  lemma UpperQuartile(sorted: seq<int>, i: nat)
    requires SortedBy(sorted, IntAtMost) && |sorted| >= 3
    requires i < 3 * (|sorted| + 1) / 4
    ensures i < |sorted| && sorted[i] as real <= PercentileOfSorted(sorted, 75.0)
  {
    var n := |sorted|;
    var rank := 75.0 / 100.0 * (n + 1) as real;
    QuartileRank(n, 3, rank);
    if rank >= n as real {
      AtMostLater(sorted, i, n - 1);
    } else {
      Interpolates(sorted, 75.0, rank.Floor - 1);
      AtMostLater(sorted, i, rank.Floor - 1);
    }
  }

  function IntInBounds(lower: real, upper: real): int -> bool {
    (v: int) => lower <= v as real <= upper
  }

  // Bounds outside the quartiles take in the middle half of the values.
  lemma MiddleHalf(values: seq<int>, lower: real, upper: real)
    requires |values| >= 3 && lower <= Percentile(values, 25.0) && Percentile(values, 75.0) <= upper
    ensures 2 * |Filter(values, IntInBounds(lower, upper))| >= |values|
    ensures |values| == 3 ==> |Filter(values, IntInBounds(lower, upper))| == 3
  {
    var n, sorted := |values|, Sort(values, IntAtMost);
    OrdersAreTotal();
    SortSorts(values, IntAtMost);
    var lo, hi := (n + 4) / 4 - 1, 3 * (n + 1) / 4;
    forall i | lo <= i < hi ensures i < n && IntInBounds(lower, upper)(sorted[i]) {
      UpperQuartile(sorted, i);
      LowerQuartile(sorted, i);
    }
    assert 0 <= lo <= hi <= n && 2 * (hi - lo) >= n && (n == 3 ==> hi - lo == 3);
    FilterRun(sorted, IntInBounds(lower, upper), lo, hi);
    FilterPermuted(sorted, values, IntInBounds(lower, upper));
  }

  lemma QuartilesOrdered(values: seq<int>)
    requires |values| >= 3
    ensures Percentile(values, 25.0) <= Percentile(values, 75.0)
  {
    var n, sorted := |values|, Sort(values, IntAtMost);
    OrdersAreTotal();
    SortSorts(values, IntAtMost);
    var i := (n + 4) / 4 - 1;
    LowerQuartile(sorted, i);
    UpperQuartile(sorted, i);
  }

  lemma AllAccepted(sources: seq<PriceSource>)
    ensures |Filter(sources, All())| == |sources|
  {
    FilterRun(sources, All(), 0, |sources|);
  }

  lemma Widens(q1: real, q3: real, multiplier: real)
    requires q1 <= q3 && multiplier >= 0.0
    ensures LowerBound(q1, q3, multiplier) <= q1 && q3 <= UpperBound(q1, q3, multiplier)
  {
    ScaleReal(0.0, q3 - q1, multiplier);
  }

  lemma AcceptedInBounds(sources: seq<PriceSource>, lower: real, upper: real)
    ensures |Filter(Values(sources), IntInBounds(lower, upper))| == |Filter(sources, InBounds(lower, upper))|
  {
    FilterOfMap(ValueOf, sources, IntInBounds(lower, upper), InBounds(lower, upper));
  }

  lemma BoundsKeepHalf(sources: seq<PriceSource>, lower: real, upper: real)
    requires |sources| >= 3
    requires lower <= Percentile(Values(sources), 25.0) && Percentile(Values(sources), 75.0) <= upper
    ensures 2 * |Filter(sources, InBounds(lower, upper))| >= |sources|
    ensures |sources| == 3 ==> |Filter(sources, InBounds(lower, upper))| == 3
  {
    MiddleHalf(Values(sources), lower, upper);
    AcceptedInBounds(sources, lower, upper);
  }

  // IQR rejection with a non-negative multiplier keeps at least half of the sources, and all of exactly three.
  lemma IqrKeepsHalf(sources: seq<PriceSource>, multiplier: real)
    requires multiplier >= 0.0
    ensures 2 * |Filter(sources, IqrAccepts(sources, multiplier))| >= |sources|
    ensures |sources| <= 3 ==> |Filter(sources, IqrAccepts(sources, multiplier))| == |sources|
  {
    if |sources| <= 2 {
      AllAccepted(sources);
    } else {
      var q1, q3 := Percentile(Values(sources), 25.0), Percentile(Values(sources), 75.0);
      QuartilesOrdered(Values(sources));
      Widens(q1, q3, multiplier);
      BoundsKeepHalf(sources, LowerBound(q1, q3, multiplier), UpperBound(q1, q3, multiplier));
    }
  }

  lemma MedianAboveHalf(sorted: seq<real>, i: nat)
    requires SortedBy(sorted, RealAtMost) && sorted != [] && i < (|sorted| + 1) / 2
    ensures sorted[i] <= MedianOfSorted(sorted)
  {
    var n := |sorted|;
    assert i < n / 2 ==> RealAtMost(sorted[i], sorted[n / 2]);
    if n % 2 == 0 {
      assert RealAtMost(sorted[n / 2 - 1], sorted[n / 2]);
      assert i < n / 2 - 1 ==> RealAtMost(sorted[i], sorted[n / 2 - 1]);
    }
  }

  lemma SpreadNonNegative(sources: seq<PriceSource>)
    requires sources != []
    ensures Spread(sources) >= 0.0
  {
    var deviations := Map(DeviationFrom(Center(sources)), sources);
    var sorted := Sort(deviations, RealAtMost);
    SameElements(sorted, deviations);
    forall i | 0 <= i < |sorted| ensures sorted[i] >= 0.0 {
      assert sorted[i] in deviations;
    }
  }

  function Small(threshold: real): real -> bool {
    (d: real) => d <= threshold
  }

  lemma HalfWithinMedian(values: seq<real>, threshold: real)
    requires values != [] && Median(values) <= threshold
    ensures 2 * |Filter(values, Small(threshold))| >= |values|
  {
    var n, sorted := |values|, Sort(values, RealAtMost);
    OrdersAreTotal();
    SortSorts(values, RealAtMost);
    forall i | 0 <= i < (n + 1) / 2 ensures Small(threshold)(sorted[i]) {
      MedianAboveHalf(sorted, i);
    }
    FilterRun(sorted, Small(threshold), 0, (n + 1) / 2);
    FilterPermuted(sorted, values, Small(threshold));
  }

  lemma AcceptedNear(sources: seq<PriceSource>, center: real, threshold: real)
    ensures |Filter(Map(DeviationFrom(center), sources), Small(threshold))|
            == |Filter(sources, NearCenter(center, threshold))|
  {
    FilterOfMap(DeviationFrom(center), sources, Small(threshold), NearCenter(center, threshold));
  }

  lemma NearKeepsHalf(sources: seq<PriceSource>, center: real, threshold: real)
    requires sources != [] && Median(Map(DeviationFrom(center), sources)) <= threshold
    ensures 2 * |Filter(sources, NearCenter(center, threshold))| >= |sources|
  {
    HalfWithinMedian(Map(DeviationFrom(center), sources), threshold);
    AcceptedNear(sources, center, threshold);
  }

  lemma Reaches(multiplier: real, spread: real)
    requires multiplier >= 1.0 && spread >= 0.0
    ensures spread <= Threshold(multiplier, spread)
  {
    ScaleReal(1.0, multiplier, spread);
  }

  // MAD rejection with a multiplier of at least one keeps at least half of the sources.
  lemma MadKeepsHalf(sources: seq<PriceSource>, multiplier: real)
    requires multiplier >= 1.0
    ensures 2 * |Filter(sources, MadAccepts(sources, multiplier))| >= |sources|
  {
    if |sources| <= 1 || Spread(sources) == 0.0 {
      AllAccepted(sources);
    } else {
      SpreadNonNegative(sources);
      Reaches(multiplier, Spread(sources));
      NearKeepsHalf(sources, Center(sources), Threshold(multiplier, Spread(sources)));
    }
  }

  // ---------------------------------------------------------------- and below those multipliers they need not

  ghost predicate IqrAlwaysKeepsHalf(multiplier: real) {
    forall sources: seq<PriceSource> :: 2 * |Filter(sources, IqrAccepts(sources, multiplier))| >= |sources|
  }

  ghost predicate MadAlwaysKeepsHalf(multiplier: real) {
    forall sources: seq<PriceSource> :: 2 * |Filter(sources, MadAccepts(sources, multiplier))| >= |sources|
  }

  lemma FilterThree(a: PriceSource, b: PriceSource, c: PriceSource, p: PriceSource -> bool)
    requires !p(a) && !p(c)
    ensures |Filter([a, b, c], p)| <= 1
  {
    assert [a, b, c][1..] == [b, c] && [b, c][1..] == [c] && [c][1..] == [];
    assert Filter([c], p) == [];
    assert |Filter([b, c], p)| <= 1;
  }

  /** Three sources at 0, 1 and 2. */
  const SPREAD_OUT := [PriceSource("a", 0, 1.0), PriceSource("b", 1, 1.0), PriceSource("c", 2, 1.0)]

  lemma QuartilesOfThree(values: seq<int>)
    requires |values| == 3 && SortedBy(values, IntAtMost)
    ensures Percentile(values, 25.0) == values[0] as real && Percentile(values, 75.0) == values[2] as real
  {
    OrdersAreTotal();
    SortSorts(values, IntAtMost);
    SortedUnique(Sort(values, IntAtMost), values, IntAtMost);
  }

  lemma SpreadOutQuartiles()
    ensures Percentile(Values(SPREAD_OUT), 25.0) == 0.0 && Percentile(Values(SPREAD_OUT), 75.0) == 2.0
  {
    QuartilesOfThree(Values(SPREAD_OUT));
  }

  lemma NegativeMultiplierRejects(multiplier: real)
    requires multiplier < 0.0
    ensures |Filter(SPREAD_OUT, IqrAccepts(SPREAD_OUT, multiplier))| <= 1
  {
    SpreadOutQuartiles();
    var lower, upper := LowerBound(0.0, 2.0, multiplier), UpperBound(0.0, 2.0, multiplier);
    assert lower > 0.0 && upper < 2.0;
    FilterThree(SPREAD_OUT[0], SPREAD_OUT[1], SPREAD_OUT[2], InBounds(lower, upper));
  }

  lemma IqrKeepsHalfExactly(multiplier: real)
    ensures IqrAlwaysKeepsHalf(multiplier) <==> multiplier >= 0.0
  {
    if multiplier >= 0.0 {
      forall sources: seq<PriceSource>
        ensures 2 * |Filter(sources, IqrAccepts(sources, multiplier))| >= |sources|
      {
        IqrKeepsHalf(sources, multiplier);
      }
    } else {
      NegativeMultiplierRejects(multiplier);
    }
  }

  /** Two sources at 0 and 2. */
  const APART := [PriceSource("a", 0, 1.0), PriceSource("c", 2, 1.0)]

  lemma MedianOfTwo(values: seq<real>)
    requires |values| == 2 && values[0] <= values[1]
    ensures Median(values) == (values[0] + values[1]) / 2.0
  {
    OrdersAreTotal();
    SortSorts(values, RealAtMost);
    SortedUnique(Sort(values, RealAtMost), values, RealAtMost);
  }

  lemma ApartSpread()
    ensures Center(APART) == 1.0 && Spread(APART) == 1.0
  {
    assert Map(RealValueOf, APART) == [0.0, 2.0];
    MedianOfTwo([0.0, 2.0]);
    assert Map(DeviationFrom(1.0), APART) == [1.0, 1.0];
    MedianOfTwo([1.0, 1.0]);
  }

  lemma FilterNone(a: PriceSource, b: PriceSource, p: PriceSource -> bool)
    requires !p(a) && !p(b)
    ensures Filter([a, b], p) == []
  {
    assert [a, b][1..] == [b] && [b][1..] == [];
  }

  lemma SmallMultiplierRejects(multiplier: real)
    requires multiplier < 1.0
    ensures Filter(APART, MadAccepts(APART, multiplier)) == []
  {
    ApartSpread();
    FilterNone(APART[0], APART[1], NearCenter(1.0, Threshold(multiplier, 1.0)));
  }

  lemma MadKeepsHalfExactly(multiplier: real)
    ensures MadAlwaysKeepsHalf(multiplier) <==> multiplier >= 1.0
  {
    if multiplier >= 1.0 {
      forall sources: seq<PriceSource>
        ensures 2 * |Filter(sources, MadAccepts(sources, multiplier))| >= |sources|
      {
        MadKeepsHalf(sources, multiplier);
      }
    } else {
      SmallMultiplierRejects(multiplier);
    }
  }

  // ---------------------------------------------------------------- the aggregator

  function IdOf(s: PriceSource): string {
    s.sourceId
  }

  predicate IdAtMost(a: PriceSource, b: PriceSource) {
    Strings.AtMost(a.sourceId, b.sourceId)
  }

  function Negate(p: PriceSource -> bool): PriceSource -> bool {
    (s: PriceSource) => !p(s)
  }

  function Ids(sources: seq<PriceSource>): set<string> {
    set s | s in sources :: s.sourceId
  }

  function ValuesById(sources: seq<PriceSource>): map<string, int> {
    if sources == [] then map[]
    else
      var last := sources[|sources| - 1];
      ValuesById(sources[..|sources| - 1])[last.sourceId := last.value]
  }

  /** `weights_used` takes the configured weights, whatever weight each source carried. */
  function WeightsById(config: AggregationConfig, sources: seq<PriceSource>): map<string, real> {
    map id | id in Ids(sources) && id in config.weights :: config.weights[id]
  }

  function Configured(config: AggregationConfig): set<string> {
    set id | id in config.sources
  }

  /** What AggregationConfig checks when it is built. */
  predicate ValidConfig(config: AggregationConfig) {
    && (forall id :: id in config.sources ==> id in config.weights)
    && (forall id :: id in config.weights ==> config.weights[id] > 0.0)
    && config.minSources >= 1
  }

  function Accepted(config: AggregationConfig, sources: seq<PriceSource>): seq<PriceSource> {
    var byId := Sort(sources, IdAtMost);
    Filter(byId, Accepts(config, byId))
  }

  function Rejected(config: AggregationConfig, sources: seq<PriceSource>): seq<string> {
    var byId := Sort(sources, IdAtMost);
    Map(IdOf, Filter(byId, Negate(Accepts(config, byId))))
  }

  /** The result once the sources are split into accepted ones and rejected ids. */
  ghost predicate Combines(config: AggregationConfig, sources: seq<PriceSource>, accepted: seq<PriceSource>,
                           rejected: seq<string>, r: Result<AggregationResult, AggregationError>) {
    if Ids(sources) != Configured(config) then r == Err(WrongSources)
    else if |accepted| < config.minSources then r == Err(TooFewSources)
    else
      && r.Ok?
      && IsWeightedMedian(accepted, r.value.aggregateValue) && Quotes(accepted, r.value.aggregateValue)
      && r.value.sourceValues == ValuesById(accepted)
      && r.value.weightsUsed == WeightsById(config, accepted)
      && r.value.rejectedSources == rejected
  }

  ghost predicate Aggregates(config: AggregationConfig, sources: seq<PriceSource>,
                             r: Result<AggregationResult, AggregationError>) {
    Combines(config, sources, Accepted(config, sources), Rejected(config, sources), r)
  }

  lemma PartitionSnoc(sources: seq<PriceSource>, s: PriceSource, accepts: PriceSource -> bool)
    ensures Filter(sources + [s], accepts) == Filter(sources, accepts) + if accepts(s) then [s] else []
    ensures Map(IdOf, Filter(sources + [s], Negate(accepts)))
            == Map(IdOf, Filter(sources, Negate(accepts))) + if accepts(s) then [] else [s.sourceId]
  {
    FilterSnoc(sources, s, accepts);
    FilterSnoc(sources, s, Negate(accepts));
    var out := Filter(sources, Negate(accepts));
    if accepts(s) {
      assert out + [] == out;
    } else {
      MapConcat(IdOf, out, [s]);
    }
  }

  lemma {:induction false} FilterKeepsWeights(sources: seq<PriceSource>, p: PriceSource -> bool)
    requires Weighted(sources)
    ensures Weighted(Filter(sources, p))
  {
    if sources != [] {
      FilterKeepsWeights(sources[1..], p);
    }
  }

  class PriceAggregator {
    const config: AggregationConfig

    constructor (config: AggregationConfig)
      requires ValidConfig(config)
      ensures this.config == config
    {
      this.config := config;
    }

    /** The rejection loop that both methods share. */
    method Partition(sources: seq<PriceSource>, accepts: PriceSource -> bool)
      returns (accepted: seq<PriceSource>, rejected: seq<string>)
      ensures accepted == Filter(sources, accepts)
      ensures rejected == Map(IdOf, Filter(sources, Negate(accepts)))
    {
      accepted, rejected := [], [];
      for i := 0 to |sources|
        invariant accepted == Filter(sources[..i], accepts)
        invariant rejected == Map(IdOf, Filter(sources[..i], Negate(accepts)))
      {
        assert sources[..i + 1] == sources[..i] + [sources[i]];
        PartitionSnoc(sources[..i], sources[i], accepts);
        if accepts(sources[i]) {
          accepted := accepted + [sources[i]];
        } else {
          rejected := rejected + [sources[i].sourceId];
        }
      }
      assert sources[..|sources|] == sources;
    }

    method RejectOutliers(sources: seq<PriceSource>) returns (accepted: seq<PriceSource>, rejected: seq<string>)
      requires Weighted(sources)
      ensures accepted == Accepted(config, sources) && rejected == Rejected(config, sources)
      ensures Weighted(accepted)
    {
      var byId := Sort(sources, IdAtMost);
      var accepts := Accepts(config, byId);
      accepted, rejected := Partition(byId, accepts);
      SameElements(byId, sources);
      FilterKeepsWeights(byId, accepts);
    }

    method Combine(sources: seq<PriceSource>, accepted: seq<PriceSource>, rejected: seq<string>)
      returns (r: Result<AggregationResult, AggregationError>)
      requires Weighted(accepted) && ValidConfig(config) && Ids(sources) == Configured(config)
      ensures Combines(config, sources, accepted, rejected, r)
    {
      if |accepted| < config.minSources {
        return Err(TooFewSources);
      }
      var median := WeightedMedian.Compute(accepted);
      return Ok(AggregationResult(median.value, ValuesById(accepted), WeightsById(config, accepted), rejected));
    }

    method Aggregate(sources: seq<PriceSource>) returns (r: Result<AggregationResult, AggregationError>)
      requires Weighted(sources) && ValidConfig(config)
      ensures Aggregates(config, sources, r)
    {
      if Ids(sources) != Configured(config) {
        return Err(WrongSources);
      }
      var accepted, rejected := RejectOutliers(sources);
      r := Combine(sources, accepted, rejected);
    }
  }

  // ---------------------------------------------------------------- what callers may rely on

  // Rejection alone never makes aggregation fail while at most half of the sources are demanded.
  lemma RejectionNeverStarves(config: AggregationConfig, sources: seq<PriceSource>,
                              r: Result<AggregationResult, AggregationError>)
    requires Aggregates(config, sources, r) && Ids(sources) == Configured(config)
    requires config.iqrMultiplier >= 0.0 && config.madMultiplier >= 1.0
    requires config.minSources <= (|sources| + 1) / 2
    ensures r.Ok?
  {
    HalfAccepted(config, Sort(sources, IdAtMost));
  }

  lemma HalfAccepted(config: AggregationConfig, sources: seq<PriceSource>)
    requires config.iqrMultiplier >= 0.0 && config.madMultiplier >= 1.0
    ensures 2 * |Filter(sources, Accepts(config, sources))| >= |sources|
  {
    match config.outlierMethod
    case Iqr => IqrKeepsHalf(sources, config.iqrMultiplier);
    case Mad => MadKeepsHalf(sources, config.madMultiplier);
    case NoRejection => AllAccepted(sources);
  }

  lemma PercentilePermuted(a: seq<PriceSource>, b: seq<PriceSource>, p: real)
    requires multiset(a) == multiset(b) && a != [] && b != []
    ensures Percentile(Values(a), p) == Percentile(Values(b), p)
  {
    OrdersAreTotal();
    MapPermuted(ValueOf, a, b);
    SortCanonical(Values(a), Values(b), IntAtMost);
  }

  lemma MedianPermuted(f: PriceSource -> real, a: seq<PriceSource>, b: seq<PriceSource>)
    requires multiset(a) == multiset(b) && a != [] && b != []
    ensures Median(Map(f, a)) == Median(Map(f, b))
  {
    OrdersAreTotal();
    MapPermuted(f, a, b);
    SortCanonical(Map(f, a), Map(f, b), RealAtMost);
  }

  lemma IqrAcceptsPermuted(a: seq<PriceSource>, b: seq<PriceSource>, multiplier: real)
    requires multiset(a) == multiset(b) && |a| == |b|
    ensures IqrAccepts(a, multiplier) == IqrAccepts(b, multiplier)
  {
    if |a| > 2 {
      PercentilePermuted(a, b, 25.0);
      PercentilePermuted(a, b, 75.0);
    }
  }

  lemma MadAcceptsPermuted(a: seq<PriceSource>, b: seq<PriceSource>, multiplier: real)
    requires multiset(a) == multiset(b) && |a| == |b|
    ensures MadAccepts(a, multiplier) == MadAccepts(b, multiplier)
  {
    if |a| > 1 {
      MedianPermuted(RealValueOf, a, b);
      assert Center(a) == Center(b);
      MedianPermuted(DeviationFrom(Center(a)), a, b);
      assert Spread(a) == Spread(b);
    }
  }

  // Both rejection rules look only at which values occur, not at their order.
  lemma AcceptsPermuted(config: AggregationConfig, a: seq<PriceSource>, b: seq<PriceSource>)
    requires multiset(a) == multiset(b)
    ensures Accepts(config, a) == Accepts(config, b)
  {
    assert |a| == |multiset(a)| == |multiset(b)| == |b|;
    match config.outlierMethod
    case Iqr => IqrAcceptsPermuted(a, b, config.iqrMultiplier);
    case Mad => MadAcceptsPermuted(a, b, config.madMultiplier);
    case NoRejection =>
  }

  lemma {:induction false} ValueOfId(sources: seq<PriceSource>, s: PriceSource)
    requires s in sources && forall u :: u in sources && u.sourceId == s.sourceId ==> u.value == s.value
    ensures s.sourceId in ValuesById(sources) && ValuesById(sources)[s.sourceId] == s.value
  {
    var front, last := sources[..|sources| - 1], sources[|sources| - 1];
    assert last in sources && forall u :: u in front ==> u in sources;
    if last.sourceId != s.sourceId {
      assert s in front;
      ValueOfId(front, s);
    }
  }

  lemma {:induction false} ValuedIds(sources: seq<PriceSource>)
    ensures ValuesById(sources).Keys == Ids(sources)
  {
    if sources != [] {
      var front, last := sources[..|sources| - 1], sources[|sources| - 1];
      ValuedIds(front);
      assert sources == front + [last];
    }
  }

  /** Sources with one id quote one value. */
  ghost predicate OneValuePerId(sources: seq<PriceSource>) {
    forall s, u :: s in sources && u in sources && s.sourceId == u.sourceId ==> s.value == u.value
  }

  lemma ValuesByIdPermuted(a: seq<PriceSource>, b: seq<PriceSource>)
    requires multiset(a) == multiset(b) && OneValuePerId(a)
    ensures ValuesById(a) == ValuesById(b)
  {
    SameElements(a, b);
    ValuedIds(a);
    ValuedIds(b);
    assert Ids(a) == Ids(b);
    forall id | id in ValuesById(a) ensures ValuesById(a)[id] == ValuesById(b)[id] {
      assert id in Ids(a);
      var s :| s in a && s.sourceId == id;
      ValueOfId(a, s);
      ValueOfId(b, s);
    }
  }

  /** The same sources are accepted and the same rejected, in whatever order. */
  lemma SplitPermuted(config: AggregationConfig, a: seq<PriceSource>, b: seq<PriceSource>)
    requires multiset(a) == multiset(b)
    ensures multiset(Accepted(config, a)) == multiset(Accepted(config, b))
    ensures |Accepted(config, a)| == |Accepted(config, b)|
    ensures multiset(Rejected(config, a)) == multiset(Rejected(config, b))
  {
    var sa, sb := Sort(a, IdAtMost), Sort(b, IdAtMost);
    AcceptsPermuted(config, sa, sb);
    var accepts := Accepts(config, sa);
    FilterPermuted(sa, sb, accepts);
    FilterPermuted(sa, sb, Negate(accepts));
    MapPermuted(IdOf, Filter(sa, Negate(accepts)), Filter(sb, Negate(accepts)));
  }

  lemma IdsAreOrdered()
    ensures TotalPreorder(IdAtMost)
  {
    forall a: PriceSource, b: PriceSource ensures IdAtMost(a, b) || IdAtMost(b, a) {
      Strings.Connected(a.sourceId, b.sourceId);
    }
    forall a: PriceSource, b: PriceSource, c: PriceSource | IdAtMost(a, b) && IdAtMost(b, c) ensures IdAtMost(a, c) {
      Strings.Transitive(a.sourceId, b.sourceId, c.sourceId);
    }
  }

  // Rejected ids are listed in ascending order.
  lemma RejectedAscend(config: AggregationConfig, sources: seq<PriceSource>)
    ensures SortedBy(Rejected(config, sources), Strings.AtMost)
  {
    var byId := Sort(sources, IdAtMost);
    IdsAreOrdered();
    SortSorts(sources, IdAtMost);
    var out := Filter(byId, Negate(Accepts(config, byId)));
    FilterStaysSorted(byId, Negate(Accepts(config, byId)), IdAtMost);
    var ids := Map(IdOf, out);
    forall i, j | 0 <= i < j < |ids| ensures Strings.AtMost(ids[i], ids[j]) {
      assert IdAtMost(out[i], out[j]);
    }
  }

  // So the very list of rejected ids is the same in whatever order the sources come.
  lemma RejectedOrderIrrelevant(config: AggregationConfig, a: seq<PriceSource>, b: seq<PriceSource>)
    requires multiset(a) == multiset(b)
    ensures Rejected(config, a) == Rejected(config, b)
  {
    SplitPermuted(config, a, b);
    RejectedAscend(config, a);
    RejectedAscend(config, b);
    Strings.StringsTotallyOrdered();
    SortedUnique(Rejected(config, a), Rejected(config, b), Strings.AtMost);
  }

  lemma AcceptedAreSources(config: AggregationConfig, sources: seq<PriceSource>)
    ensures forall s :: s in Accepted(config, sources) ==> s in sources
  {
    var byId := Sort(sources, IdAtMost);
    SameElements(byId, sources);
    var accepts := Accepts(config, byId);
    forall s | s in Filter(byId, accepts) ensures s in sources {
      FilterMultiset(byId, accepts, s);
      assert multiset(Filter(byId, accepts))[s] > 0;
      assert s in multiset(byId);
    }
  }

  lemma CombinedPermuted(config: AggregationConfig, a: seq<PriceSource>, b: seq<PriceSource>, ka: seq<PriceSource>,
                         kb: seq<PriceSource>, ja: seq<string>, jb: seq<string>,
                         ra: Result<AggregationResult, AggregationError>,
                         rb: Result<AggregationResult, AggregationError>)
    requires Weighted(a) && multiset(a) == multiset(b) && (forall s :: s in ka ==> s in a)
    requires multiset(ka) == multiset(kb) && |ka| == |kb| && ja == jb
    requires Combines(config, a, ka, ja, ra) && Combines(config, b, kb, jb, rb)
    ensures ra.Ok? == rb.Ok? && (ra.Err? ==> ra == rb)
    ensures ra.Ok? ==> ra.value.aggregateValue == rb.value.aggregateValue
    ensures ra.Ok? ==> ra.value.weightsUsed == rb.value.weightsUsed
    ensures ra.Ok? ==> ra.value.rejectedSources == rb.value.rejectedSources
    ensures ra.Ok? && OneValuePerId(a) ==> ra.value.sourceValues == rb.value.sourceValues
  {
    SameElements(a, b);
    assert Ids(a) == Ids(b);
    if ra.Ok? {
      MedianOrderIrrelevant(ka, kb, ra.value.aggregateValue, rb.value.aggregateValue);
      SameElements(ka, kb);
      assert Ids(ka) == Ids(kb);
      if OneValuePerId(a) {
        ValuesByIdPermuted(ka, kb);
      }
    }
  }

  // The order in which sources are passed changes neither the outcome, the aggregate, the weights, the list of rejected
  // sources nor, when each id quotes one value, the values reported.
  lemma AggregateOrderIrrelevant(config: AggregationConfig, a: seq<PriceSource>, b: seq<PriceSource>,
                                 ra: Result<AggregationResult, AggregationError>,
                                 rb: Result<AggregationResult, AggregationError>)
    requires Weighted(a) && multiset(a) == multiset(b)
    requires Aggregates(config, a, ra) && Aggregates(config, b, rb)
    ensures ra.Ok? == rb.Ok? && (ra.Err? ==> ra == rb)
    ensures ra.Ok? ==> ra.value.aggregateValue == rb.value.aggregateValue
    ensures ra.Ok? ==> ra.value.weightsUsed == rb.value.weightsUsed
    ensures ra.Ok? ==> ra.value.rejectedSources == rb.value.rejectedSources
    ensures ra.Ok? && OneValuePerId(a) ==> ra.value.sourceValues == rb.value.sourceValues
  {
    SplitPermuted(config, a, b);
    RejectedOrderIrrelevant(config, a, b);
    AcceptedAreSources(config, a);
    CombinedPermuted(config, a, b, Accepted(config, a), Accepted(config, b), Rejected(config, a), Rejected(config, b),
        ra, rb);
  }
}
