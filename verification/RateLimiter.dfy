/** The multi-tier limiter (backend/src/common/middleware/rateLimit.ts) and how many requests it can let through. */
module RateLimiter {
  import opened Base
  import opened RateLimitStore

  datatype Check = Check(bucket: string, limit: nat, window: int)

  datatype Request = Request(checks: seq<Check>, now: int)

  /** `violated` is the first check over its limit; `tightest` the first one with the fewest requests left. */
  datatype Verdict =
    | Allowed(tightest: nat)
    | Rejected(violated: nat, retryAfter: int)

  datatype TierResult = TierResult(check: Check, estimated: real, remaining: int, reset: int)

  function Judge(check: Check, counts: WindowCounts, now: int): TierResult
    requires check.window > 0
  {
    var estimated := SlidingWindowCount(counts, check.window, now);
    var left := (check.limit as real - estimated).Floor;
    TierResult(check, estimated, if left < 0 then 0 else left, counts.windowStart + check.window)
  }

  predicate Exceeded(result: TierResult) {
    result.estimated > result.check.limit as real
  }

  ghost predicate WellFormed(checks: seq<Check>) {
    forall check :: check in checks ==> check.window > 0
  }

  /** Either counter store. */
  datatype Store = Memory(entries: Entries) | Redis(keys: Keys)

  function Increment(store: Store, bucket: string, window: int, now: int): (Store, WindowCounts)
    requires window > 0
  {
    match store
    case Memory(entries) =>
      var (after, counts) := MemoryIncrement(entries, bucket, window, now);
      (Memory(after), counts)
    case Redis(keys) =>
      var (after, counts) := RedisIncrement(keys, bucket, window, now);
      (Redis(after), counts)
  }

  /** Every check is counted, whatever the others say. */
  function CountAll(store: Store, checks: seq<Check>, now: int): (r: (Store, seq<WindowCounts>))
    requires WellFormed(checks)
    ensures |r.1| == |checks|
  {
    if checks == [] then (store, [])
    else
      var last := checks[|checks| - 1];
      var (before, counts) := CountAll(store, checks[..|checks| - 1], now);
      var (after, count) := Increment(before, last.bucket, last.window, now);
      (after, counts + [count])
  }

  function Judged(checks: seq<Check>, counts: seq<WindowCounts>, now: int): seq<TierResult>
    requires WellFormed(checks) && |counts| == |checks|
  {
    seq(|checks|, i requires 0 <= i < |checks| => assert checks[i] in checks; Judge(checks[i], counts[i], now))
  }

  function Evaluate(store: Store, r: Request): (Store, seq<TierResult>)
    requires WellFormed(r.checks)
  {
    var (after, counts) := CountAll(store, r.checks, r.now);
    (after, Judged(r.checks, counts, r.now))
  }

  ghost predicate Passes(results: seq<TierResult>) {
    forall i :: 0 <= i < |results| ==> !Exceeded(results[i])
  }

  /** The verdict the results call for. */
  ghost predicate Follows(verdict: Verdict, results: seq<TierResult>, now: int) {
    match verdict
    case Rejected(i, retry) =>
      && i < |results| && Exceeded(results[i]) && Passes(results[..i])
      && retry == if results[i].reset - now > 1 then results[i].reset - now else 1
    case Allowed(i) =>
      && i < |results| && Passes(results)
      && (forall j :: 0 <= j < |results| ==> results[i].remaining <= results[j].remaining)
      && (forall j :: 0 <= j < i ==> results[i].remaining < results[j].remaining)
  }

  /** The first exceeded result, or their number when there is none. */
  method FindViolated(results: seq<TierResult>) returns (i: nat)
    ensures i <= |results| && Passes(results[..i]) && (i < |results| ==> Exceeded(results[i]))
  {
    i := 0;
    while i < |results| && !Exceeded(results[i])
      invariant i <= |results| && Passes(results[..i])
    {
      i := i + 1;
    }
  }

  /** The first result with the fewest requests left. */
  method FindTightest(results: seq<TierResult>) returns (i: nat)
    requires results != []
    ensures i < |results|
    ensures forall j :: 0 <= j < |results| ==> results[i].remaining <= results[j].remaining
    ensures forall j :: 0 <= j < i ==> results[i].remaining < results[j].remaining
  {
    i := 0;
    for k := 1 to |results|
      invariant i < k
      invariant forall j :: 0 <= j < k ==> results[i].remaining <= results[j].remaining
      invariant forall j :: 0 <= j < i ==> results[i].remaining < results[j].remaining
    {
      if results[k].remaining < results[i].remaining {
        i := k;
      }
    }
  }

  method RateLimit(store: InMemoryStore, checks: seq<Check>, now: int) returns (verdict: Verdict)
    requires WellFormed(checks) && checks != []
    modifies store
    ensures Memory(store.entries) == Evaluate(Memory(old(store.entries)), Request(checks, now)).0
    ensures Follows(verdict, Evaluate(Memory(old(store.entries)), Request(checks, now)).1, now)
  {
    var results: seq<TierResult> := [];
    ghost var counts: seq<WindowCounts> := [];
    for i := 0 to |checks|
      invariant (Memory(store.entries), counts) == CountAll(Memory(old(store.entries)), checks[..i], now)
      invariant results == Judged(checks[..i], counts, now)
    {
      var check := checks[i];
      assert checks[..i + 1][..i] == checks[..i];
      var count := store.Increment(check.bucket, check.window, now);
      results, counts := results + [Judge(check, count, now)], counts + [count];
    }
    assert checks[..|checks|] == checks;
    var violated := FindViolated(results);
    if violated < |results| {
      var wait := results[violated].reset - now;
      return Rejected(violated, if wait > 1 then wait else 1);
    }
    assert results[..violated] == results;
    var tightest := FindTightest(results);
    return Allowed(tightest);
  }

  // ---------------------------------------------------------------- requests that passed

  function PassedHit(a: Arrival, bucket: string, lo: int, hi: int): int {
    if a.passed then Hit(a, bucket, lo, hi) else 0
  }

  /** Passed requests of a bucket at times in [lo, hi). */
  function PassedIn(log: seq<Arrival>, bucket: string, lo: int, hi: int): (n: nat)
    ensures n <= CountIn(log, bucket, lo, hi)
  {
    if log == [] then 0
    else PassedIn(log[..|log| - 1], bucket, lo, hi) + PassedHit(log[|log| - 1], bucket, lo, hi)
  }

  /** The estimate in whole numbers: current count plus the previous count weighted by the time left. */
  ghost predicate Fits(counts: WindowCounts, limit: nat, window: int, now: int) {
    counts.currentCount * window + counts.previousCount * (counts.windowStart + window - now) <= limit * window
  }

  lemma RealScale(x: real, y: real, w: real)
    requires w > 0.0
    ensures x <= y <==> x * w <= y * w
  {
  }

  lemma ScaledEstimate(c: int, p: int, elapsed: int, window: int)
    requires 0 <= elapsed < window
    ensures (c as real + p as real * (1.0 - elapsed as real / window as real)) * window as real
            == (c * window + p * (window - elapsed)) as real
  {
    var w, q := window as real, elapsed as real / window as real;
    assert q * w == elapsed as real;
    assert (c as real + p as real * (1.0 - q)) * w == c as real * w + p as real * (w - q * w);
  }

  // The limiter's comparison of a fraction with the limit is exactly `Fits`.
  lemma ExceededMeansUnfit(check: Check, counts: WindowCounts, now: int)
    requires check.window > 0 && counts.windowStart <= now < counts.windowStart + check.window
    ensures !Exceeded(Judge(check, counts, now)) <==> Fits(counts, check.limit, check.window, now)
  {
    var w, elapsed := check.window as real, now - counts.windowStart;
    assert elapsed as real / w < 1.0;
    ScaledEstimate(counts.currentCount, counts.previousCount, elapsed, check.window);
    RealScale(SlidingWindowCount(counts, check.window, now), check.limit as real, w);
    assert check.limit as real * w == (check.limit * check.window) as real;
  }

  /** The acceptance rule on the history: a passed arrival found its bucket's estimate within the limit. */
  ghost predicate Limited(log: seq<Arrival>, bucket: string, limit: nat, window: int)
    requires window > 0
  {
    forall i :: 0 <= i < |log| && log[i].bucket == bucket && log[i].passed ==>
      Fits(HistoryCounts(log[..i + 1], bucket, window, log[i].at), limit, window, log[i].at)
  }

  lemma LimitedPrefix(log: seq<Arrival>, bucket: string, limit: nat, window: int)
    requires window > 0 && log != [] && Limited(log, bucket, limit, window) && Sorted(log)
    ensures Limited(log[..|log| - 1], bucket, limit, window) && Sorted(log[..|log| - 1])
  {
    var before := log[..|log| - 1];
    forall i | 0 <= i < |before| && before[i].bucket == bucket && before[i].passed
      ensures Fits(HistoryCounts(before[..i + 1], bucket, window, before[i].at), limit, window, before[i].at)
    {
      assert before[..i + 1] == log[..i + 1];
    }
  }

  // What the rule says of a log that ends with a passed arrival in window number `k`.
  lemma LastFits(log: seq<Arrival>, bucket: string, limit: nat, window: int, k: int, start: int)
    requires window > 0 && start == k * window && log != [] && Limited(log, bucket, limit, window)
    requires PassedHit(log[|log| - 1], bucket, start, start + window) == 1
    ensures CountIn(log, bucket, start, start + window) * window
            + CountIn(log, bucket, start - window, start) * (start + window - log[|log| - 1].at) <= limit * window
  {
    IndexUnique(log[|log| - 1].at, k, window);
    assert log[..|log| - 1 + 1] == log;
  }

  // ---------------------------------------------------------------- one fixed window

  lemma CurrentWithin(current: nat, previous: nat, left: nat, limit: nat, window: int)
    requires window > 0 && current * window + previous * left <= limit * window
    ensures current <= limit
  {
    if current > limit {
      ScaleMonotone(limit + 1, current, window);
    }
  }

  lemma {:induction false} FixedWindowBound(log: seq<Arrival>, bucket: string, limit: nat, window: int, k: int,
                                            start: int)
    requires window > 0 && start == k * window && Sorted(log) && Limited(log, bucket, limit, window)
    ensures PassedIn(log, bucket, start, start + window) <= limit
    decreases |log|
  {
    if log != [] {
      var last := log[|log| - 1];
      if PassedHit(last, bucket, start, start + window) == 1 {
        LastFits(log, bucket, limit, window, k, start);
        CurrentWithin(CountIn(log, bucket, start, start + window), CountIn(log, bucket, start - window, start),
                      start + window - last.at, limit, window);
      } else {
        LimitedPrefix(log, bucket, limit, window);
        FixedWindowBound(log[..|log| - 1], bucket, limit, window, k, start);
      }
    }
  }

  // ---------------------------------------------------------------- any span of one window's length

  lemma {:induction false} SplitPassed(log: seq<Arrival>, bucket: string, lo: int, mid: int, hi: int)
    requires lo <= mid <= hi
    ensures PassedIn(log, bucket, lo, hi) == PassedIn(log, bucket, lo, mid) + PassedIn(log, bucket, mid, hi)
  {
    if log != [] {
      SplitPassed(log[..|log| - 1], bucket, lo, mid, hi);
    }
  }

  lemma {:induction false} NothingYet(log: seq<Arrival>, bucket: string, lo: int, hi: int)
    requires forall i :: 0 <= i < |log| ==> log[i].at < lo
    ensures PassedIn(log, bucket, lo, hi) == 0
  {
    if log != [] {
      NothingYet(log[..|log| - 1], bucket, lo, hi);
    }
  }

  lemma PaysForPrevious(passed: nat, current: nat, previous: nat, left: nat, atLeast: nat, limit: nat, window: nat)
    requires passed <= current && atLeast <= left && current * window + previous * left <= limit * window
    ensures passed * window + previous * atLeast <= limit * window
  {
    ScaleMonotone(passed, current, window);
    ScaleMonotone(atLeast, left, previous);
  }

  // Whatever passes after a window boundary pays for every arrival counted before it, rejected ones included.
  lemma {:induction false} AfterBoundary(log: seq<Arrival>, bucket: string, limit: nat, window: int, k: int,
                                         boundary: int, hi: int)
    requires window > 0 && boundary == k * window && boundary <= hi <= boundary + window
    requires Sorted(log) && Limited(log, bucket, limit, window)
    requires PassedIn(log, bucket, boundary, hi) > 0
    ensures PassedIn(log, bucket, boundary, hi) * window
            + CountIn(log, bucket, boundary - window, boundary) * (boundary + window - hi + 1) <= limit * window
    decreases |log|
  {
    var last, before := log[|log| - 1], log[..|log| - 1];
    if PassedHit(last, bucket, boundary, hi) == 1 {
      LastFits(log, bucket, limit, window, k, boundary);
      CountWider(log, bucket, boundary, hi, boundary + window);
      PaysForPrevious(PassedIn(log, bucket, boundary, hi), CountIn(log, bucket, boundary, boundary + window),
                      CountIn(log, bucket, boundary - window, boundary), boundary + window - last.at,
                      boundary + window - hi + 1, limit, window);
    } else {
      LimitedPrefix(log, bucket, limit, window);
      AfterBoundary(before, bucket, limit, window, k, boundary, hi);
      if last.at < boundary {
        NothingYet(before, bucket, boundary, hi);
      }
    }
  }

  lemma {:induction false} CountWider(log: seq<Arrival>, bucket: string, lo: int, mid: int, hi: int)
    requires mid <= hi
    ensures CountIn(log, bucket, lo, mid) <= CountIn(log, bucket, lo, hi)
  {
    if log != [] {
      CountWider(log[..|log| - 1], bucket, lo, mid, hi);
    }
  }

  lemma {:induction false} PassedWider(log: seq<Arrival>, bucket: string, lo': int, lo: int, hi: int)
    requires lo' <= lo
    ensures PassedIn(log, bucket, lo, hi) <= PassedIn(log, bucket, lo', hi)
  {
    if log != [] {
      PassedWider(log[..|log| - 1], bucket, lo', lo, hi);
    }
  }

  /** At most limit + limit * (window - 2) / window. */
  ghost predicate WithinBurst(n: nat, limit: nat, window: int) {
    n * window <= limit * window + limit * (if window >= 2 then window - 2 else 0)
  }

  lemma Combine(x: nat, y: nat, c: nat, limit: nat, w: nat, a: nat)
    requires x <= limit && x <= c && 1 <= a < w
    requires y == 0 || y * w + c * (a + 1) <= limit * w
    ensures WithinBurst(x + y, limit, w)
  {
    if y == 0 {
      ScaleMonotone(x, limit, w);
    } else {
      ScaleMonotone(x, c, a + 1);
      ScaleMonotone(x, limit, w - a - 1);
      assert x * (w - a - 1) == x * w - x * (a + 1);
      ScaleMonotone(w - a - 1, w - 2, limit);
      assert limit * (w - a - 1) == (w - a - 1) * limit && limit * (w - 2) == (w - 2) * limit;
    }
  }

  lemma LimitWithinBurst(n: nat, limit: nat, window: int)
    requires n <= limit && window > 0
    ensures WithinBurst(n, limit, window)
  {
    ScaleMonotone(n, limit, window);
    assert limit * (if window >= 2 then window - 2 else 0) >= 0;
  }

  lemma UnderTwice(n: nat, limit: nat, window: nat)
    requires limit > 0 && window > 0 && WithinBurst(n, limit, window)
    ensures n < 2 * limit
  {
    if n >= 2 * limit {
      ScaleMonotone(2 * limit, n, window);
    }
  }

  lemma FirstHalf(log: seq<Arrival>, bucket: string, limit: nat, window: int, k: int, start: int, from: int,
                  boundary: int)
    requires window > 0 && start == k * window && boundary == start + window && start <= from <= boundary
    requires Sorted(log) && Limited(log, bucket, limit, window)
    ensures PassedIn(log, bucket, from, boundary) <= limit
    ensures PassedIn(log, bucket, from, boundary) <= CountIn(log, bucket, start, boundary)
  {
    FixedWindowBound(log, bucket, limit, window, k, start);
    PassedWider(log, bucket, start, from, boundary);
  }

  lemma SpanBound(log: seq<Arrival>, bucket: string, limit: nat, window: int, k: int, boundary: int, from: int)
    requires window > 0 && boundary == (k + 1) * window && boundary - window == k * window
    requires boundary - window < from < boundary
    requires Sorted(log) && Limited(log, bucket, limit, window)
    ensures WithinBurst(PassedIn(log, bucket, from, from + window), limit, window)
  {
    var a, c := boundary - from, CountIn(log, bucket, boundary - window, boundary);
    var x, y := PassedIn(log, bucket, from, boundary), PassedIn(log, bucket, boundary, from + window);
    assert PassedIn(log, bucket, from, from + window) == x + y by {
      SplitPassed(log, bucket, from, boundary, from + window);
    }
    assert x <= limit && x <= c by {
      FirstHalf(log, bucket, limit, window, k, boundary - window, from, boundary);
    }
    assert y == 0 || y * window + c * (a + 1) <= limit * window by {
      if y > 0 {
        AfterBoundary(log, bucket, limit, window, k + 1, boundary, from + window);
        assert boundary + window - (from + window) + 1 == a + 1;
      }
    }
    Combine(x, y, c, limit, window, a);
  }

  // In any `window` consecutive seconds at most limit + limit * (window - 2) / window requests pass.
  lemma BurstBound(log: seq<Arrival>, bucket: string, limit: nat, window: int, from: int)
    requires window > 0 && Sorted(log) && Limited(log, bucket, limit, window)
    ensures var n := PassedIn(log, bucket, from, from + window);
            && WithinBurst(n, limit, window)
            && (limit > 0 ==> n < 2 * limit)
  {
    var n, k := PassedIn(log, bucket, from, from + window), from / window;
    var start := k * window;
    StartOf(from, window, k, start);
    if from == start {
      FixedWindowBound(log, bucket, limit, window, k, start);
      LimitWithinBurst(n, limit, window);
    } else {
      SpanBound(log, bucket, limit, window, k, start + window, from);
    }
    if limit > 0 {
      UnderTwice(n, limit, window);
    }
  }

  /** `limit` requests in the last second of a window, the others in the last but one of the next. */
  function Spike(bucket: string, limit: nat, window: int, n: nat): seq<Arrival> {
    seq(n, i => Arrival(bucket, if i < limit then window - 1 else 2 * window - 2, true))
  }

  lemma {:induction false} SpikeCounts(bucket: string, limit: nat, window: int, n: nat)
    requires window >= 2
    ensures var log, first := Spike(bucket, limit, window, n), if n < limit then n else limit;
            && CountIn(log, bucket, -window, 0) == 0
            && CountIn(log, bucket, 0, window) == first
            && CountIn(log, bucket, window, 2 * window) == n - first
            && PassedIn(log, bucket, window - 1, 2 * window - 1) == n
    decreases n
  {
    if n > 0 {
      SpikeCounts(bucket, limit, window, n - 1);
      assert Spike(bucket, limit, window, n)[..n - 1] == Spike(bucket, limit, window, n - 1);
    }
  }

  lemma EarlyFits(limit: nat, window: int, early: nat)
    requires window >= 2 && early <= limit
    ensures Fits(WindowCounts(early, 0, 0), limit, window, window - 1)
  {
    ScaleMonotone(early, limit, window);
  }

  lemma LateFits(limit: nat, window: int, extra: nat, late: nat)
    requires window >= 2 && extra * window <= limit * (window - 2) && late <= extra
    ensures Fits(WindowCounts(late, limit, window), limit, window, 2 * window - 2)
  {
    ScaleMonotone(late, extra, window);
    assert limit * (window - 2) == limit * window - limit * 2;
  }

  lemma SpikeFits(bucket: string, limit: nat, window: int, extra: nat, i: nat)
    requires window >= 2 && extra * window <= limit * (window - 2) && i < limit + extra
    ensures var at := if i < limit then window - 1 else 2 * window - 2;
            Fits(HistoryCounts(Spike(bucket, limit, window, i + 1), bucket, window, at), limit, window, at)
  {
    var log := Spike(bucket, limit, window, i + 1);
    SpikeCounts(bucket, limit, window, i + 1);
    if i < limit {
      IndexUnique(window - 1, 0, window);
      assert HistoryCounts(log, bucket, window, window - 1) == WindowCounts(i + 1, 0, 0);
      EarlyFits(limit, window, i + 1);
    } else {
      IndexUnique(2 * window - 2, 1, window);
      assert HistoryCounts(log, bucket, window, 2 * window - 2) == WindowCounts(i + 1 - limit, limit, window);
      LateFits(limit, window, extra, i + 1 - limit);
    }
  }

  lemma OneMoreIsTooMany(limit: nat, window: int, extra: nat)
    requires window >= 2 && limit * (window - 2) < extra * window + window
    ensures !WithinBurst(limit + extra + 1, limit, window)
  {
    assert (limit + extra + 1) * window == limit * window + extra * window + window;
  }

  // The bound is reached, for every limit and every window of at least two seconds.
  lemma BurstBoundIsReached(bucket: string, limit: nat, window: int, extra: nat)
    requires window >= 2 && extra == limit * (window - 2) / window
    ensures var log := Spike(bucket, limit, window, limit + extra);
            && Sorted(log) && Limited(log, bucket, limit, window)
            && PassedIn(log, bucket, window - 1, 2 * window - 1) == limit + extra
            && !WithinBurst(limit + extra + 1, limit, window)
  {
    var log := Spike(bucket, limit, window, limit + extra);
    WindowOf(limit * (window - 2), window);
    OneMoreIsTooMany(limit, window, extra);
    SpikeCounts(bucket, limit, window, limit + extra);
    SpikeIsLimited(bucket, limit, window, extra);
  }

  lemma SpikeIsLimited(bucket: string, limit: nat, window: int, extra: nat)
    requires window >= 2 && extra * window <= limit * (window - 2)
    ensures Limited(Spike(bucket, limit, window, limit + extra), bucket, limit, window)
  {
    var log := Spike(bucket, limit, window, limit + extra);
    forall i | 0 <= i < |log|
      ensures Fits(HistoryCounts(log[..i + 1], bucket, window, log[i].at), limit, window, log[i].at)
    {
      assert log[..i + 1] == Spike(bucket, limit, window, i + 1);
      SpikeFits(bucket, limit, window, extra, i);
    }
  }

  lemma StartOf(from: int, window: int, k: int, start: int)
    requires window > 0 && k == from / window && start == k * window
    ensures start <= from < start + window && start + window == (k + 1) * window
  {
    WindowOf(from, window);
  }

  // ---------------------------------------------------------------- the limiter as it runs

  /** The log after one request: an arrival for each check, all with the request's fate. */
  function Tagged(log: seq<Arrival>, checks: seq<Check>, now: int, passed: bool): (after: seq<Arrival>)
    ensures |after| == |log| + |checks| && after[..|log|] == log
    ensures forall i :: 0 <= i < |checks| ==> after[|log| + i] == Arrival(checks[i].bucket, now, passed)
  {
    if checks == [] then log
    else
      var n := |checks| - 1;
      Tagged(log, checks[..n], now, passed) + [Arrival(checks[n].bucket, now, passed)]
  }

  /** The limiter's state: its store, and the log of every arrival it counted. */
  datatype Limiter = Limiter(store: Store, log: seq<Arrival>)

  ghost function Serve(s: Limiter, r: Request): Limiter
    requires WellFormed(r.checks)
  {
    var (store, results) := Evaluate(s.store, r);
    Limiter(store, Tagged(s.log, r.checks, r.now, Passes(results)))
  }

  ghost function ServeAll(s: Limiter, requests: seq<Request>): Limiter
    requires forall r :: r in requests ==> WellFormed(r.checks)
    decreases |requests|
  {
    if requests == [] then s else ServeAll(Serve(s, requests[0]), requests[1..])
  }

  /** Every bucket belongs to one tier, with one limit and one window. */
  ghost predicate Configured(r: Request, limitOf: string -> nat, windowOf: string -> int) {
    forall check :: check in r.checks ==> check.limit == limitOf(check.bucket) && check.window == windowOf(check.bucket)
  }

  ghost predicate InOrder(from: int, requests: seq<Request>)
    decreases |requests|
  {
    requests != [] ==> from <= requests[0].now && InOrder(requests[0].now, requests[1..])
  }

  /** The windows a store serves faithfully: any for Redis, those the idle sweep cannot disturb for the memory store. */
  ghost predicate Suits(store: Store, windowOf: string -> int) {
    if store.Memory? then ShortWindows(windowOf) else forall b :: windowOf(b) > 0
  }

  ghost predicate Agrees(store: Store, log: seq<Arrival>, windowOf: string -> int) {
    && Suits(store, windowOf)
    && Sorted(log)
    && match store
       case Memory(entries) => MemoryAgrees(entries, log, windowOf)
       case Redis(keys) => RedisAgrees(keys, log, windowOf)
  }

  // Either store gives the history's counts for the next arrival.
  lemma IncrementAgrees(store: Store, log: seq<Arrival>, a: Arrival, windowOf: string -> int)
    requires Agrees(store, log, windowOf) && (log != [] ==> log[|log| - 1].at <= a.at)
    ensures windowOf(a.bucket) > 0
    ensures var (after, counts) := Increment(store, a.bucket, windowOf(a.bucket), a.at);
            && counts == HistoryCounts(log + [a], a.bucket, windowOf(a.bucket), a.at)
            && Agrees(after, log + [a], windowOf) && (after.Memory? <==> store.Memory?)
  {
    SortedSnoc(log, a);
    match store
    case Memory(entries) => MemoryMatchesHistory(entries, log, a, windowOf);
    case Redis(keys) => RedisMatchesHistory(keys, log, a, windowOf);
  }

  ghost predicate Faithful(s: Limiter, limitOf: string -> nat, windowOf: string -> int) {
    && Agrees(s.store, s.log, windowOf)
    && forall b :: windowOf(b) > 0 && Limited(s.log, b, limitOf(b), windowOf(b))
  }

  /** The counts are the history's, each check including the arrivals before it. */
  ghost predicate FromHistory(counts: seq<WindowCounts>, checks: seq<Check>, base: nat, log: seq<Arrival>, now: int)
    requires WellFormed(checks)
  {
    && |counts| == |checks| && |log| == base + |checks|
    && forall i :: 0 <= i < |checks| ==>
         counts[i] == HistoryCounts(log[..base + i + 1], checks[i].bucket, checks[i].window, now)
  }

  lemma FromHistorySnoc(counts: seq<WindowCounts>, checks: seq<Check>, base: nat, log: seq<Arrival>, now: int,
                        count: WindowCounts, check: Check, a: Arrival)
    requires WellFormed(checks) && FromHistory(counts, checks, base, log, now) && check.window > 0
    requires count == HistoryCounts(log + [a], check.bucket, check.window, now)
    ensures WellFormed(checks + [check]) && FromHistory(counts + [count], checks + [check], base, log + [a], now)
  {
    forall i | 0 <= i < |checks| + 1
      ensures (counts + [count])[i] == HistoryCounts((log + [a])[..base + i + 1], (checks + [check])[i].bucket,
                                                     (checks + [check])[i].window, now)
    {
      if i < |checks| {
        assert (log + [a])[..base + i + 1] == log[..base + i + 1];
      } else {
        assert (log + [a])[..base + i + 1] == log + [a];
      }
    }
  }

  /** Both halves of what counting a list of checks keeps. */
  ghost predicate Counted(r: (Store, seq<WindowCounts>), checks: seq<Check>, base: nat, log: seq<Arrival>, now: int,
                          windowOf: string -> int)
    requires WellFormed(checks)
  {
    && Agrees(r.0, log, windowOf)
    && FromHistory(r.1, checks, base, log, now)
    && (log != [] ==> log[|log| - 1].at <= now)
  }

  lemma CountedSnoc(r: (Store, seq<WindowCounts>), checks: seq<Check>, base: nat, log: seq<Arrival>, now: int,
                    windowOf: string -> int, check: Check, passed: bool)
    requires WellFormed(checks) && Counted(r, checks, base, log, now, windowOf)
    requires check.window == windowOf(check.bucket) > 0
    ensures var next := Increment(r.0, check.bucket, check.window, now);
            && WellFormed(checks + [check])
            && Counted((next.0, r.1 + [next.1]), checks + [check], base, log + [Arrival(check.bucket, now, passed)],
                now,
                       windowOf)
  {
    var a := Arrival(check.bucket, now, passed);
    IncrementAgrees(r.0, log, a, windowOf);
    FromHistorySnoc(r.1, checks, base, log, now, Increment(r.0, check.bucket, check.window, now).1, check, a);
  }

  lemma CountAllSnoc(store: Store, checks: seq<Check>, check: Check, now: int)
    requires WellFormed(checks) && check.window > 0
    ensures WellFormed(checks + [check])
    ensures var (before, counts) := CountAll(store, checks, now);
            var (after, count) := Increment(before, check.bucket, check.window, now);
            CountAll(store, checks + [check], now) == (after, counts + [count])
  {
    assert (checks + [check])[..|checks|] == checks;
  }

  lemma {:induction false} CountAllAgrees(s: Limiter, checks: seq<Check>, now: int, passed: bool,
                                          windowOf: string -> int)
    requires WellFormed(checks) && Counted((s.store, []), [], |s.log|, s.log, now, windowOf)
    requires forall check :: check in checks ==> check.window == windowOf(check.bucket)
    ensures Counted(CountAll(s.store, checks, now), checks, |s.log|, Tagged(s.log, checks, now, passed), now, windowOf)
    decreases |checks|
  {
    if checks != [] {
      var before, last := checks[..|checks| - 1], checks[|checks| - 1];
      assert last in checks && before + [last] == checks;
      CountAllAgrees(s, before, now, passed, windowOf);
      CountedSnoc(CountAll(s.store, before, now), before, |s.log|, Tagged(s.log, before, now, passed), now, windowOf,
                  last, passed);
      CountAllSnoc(s.store, before, last, now);
    }
  }

  lemma PassedFits(counts: seq<WindowCounts>, checks: seq<Check>, base: nat, log: seq<Arrival>, now: int, i: nat)
    requires WellFormed(checks) && FromHistory(counts, checks, base, log, now)
    requires Passes(Judged(checks, counts, now)) && i < |checks|
    ensures checks[i] in checks
    ensures Fits(HistoryCounts(log[..base + i + 1], checks[i].bucket, checks[i].window, now), checks[i].limit,
                 checks[i].window, now)
  {
    WindowOf(now, checks[i].window);
    ExceededMeansUnfit(checks[i], counts[i], now);
    assert !Exceeded(Judged(checks, counts, now)[i]);
  }

  lemma TaggedIsLimited(before: seq<Arrival>, counts: seq<WindowCounts>, checks: seq<Check>, now: int, passed: bool,
                        b: string, limit: nat, window: int)
    requires WellFormed(checks) && window > 0 && Limited(before, b, limit, window)
    requires forall check :: check in checks && check.bucket == b ==> check.limit == limit && check.window == window
    requires FromHistory(counts, checks, |before|, Tagged(before, checks, now, passed), now)
    requires passed ==> Passes(Judged(checks, counts, now))
    ensures Limited(Tagged(before, checks, now, passed), b, limit, window)
  {
    var log := Tagged(before, checks, now, passed);
    assert log[..|before|] == before;
    forall i | 0 <= i < |log| && log[i].bucket == b && log[i].passed
      ensures Fits(HistoryCounts(log[..i + 1], b, window, log[i].at), limit, window, log[i].at)
    {
      if i < |before| {
        assert log[i] == before[i];
        assert log[..i + 1] == before[..i + 1];
      } else {
        var j := i - |before|;
        assert log[|before| + j] == Arrival(checks[j].bucket, now, passed);
        PassedFits(counts, checks, |before|, log, now, j);
      }
    }
  }

  lemma ServeIsFaithful(s: Limiter, r: Request, limitOf: string -> nat, windowOf: string -> int)
    requires Faithful(s, limitOf, windowOf) && WellFormed(r.checks) && Configured(r, limitOf, windowOf)
    requires s.log != [] ==> s.log[|s.log| - 1].at <= r.now
    ensures Faithful(Serve(s, r), limitOf, windowOf)
    ensures Serve(s, r).log != [] ==> Serve(s, r).log[|Serve(s, r).log| - 1].at <= r.now
  {
    var counts, passed := CountAll(s.store, r.checks, r.now).1, Passes(Evaluate(s.store, r).1);
    CountAllAgrees(s, r.checks, r.now, passed, windowOf);
    forall b ensures Limited(Serve(s, r).log, b, limitOf(b), windowOf(b)) {
      assert Limited(s.log, b, limitOf(b), windowOf(b));
      TaggedIsLimited(s.log, counts, r.checks, r.now, passed, b, limitOf(b), windowOf(b));
    }
  }

  lemma {:induction false} ServeAllIsFaithful(s: Limiter, requests: seq<Request>, limitOf: string -> nat,
                                              windowOf: string -> int, from: int)
    requires Faithful(s, limitOf, windowOf) && InOrder(from, requests)
    requires s.log != [] ==> s.log[|s.log| - 1].at <= from
    requires forall r :: r in requests ==> WellFormed(r.checks) && Configured(r, limitOf, windowOf)
    ensures Faithful(ServeAll(s, requests), limitOf, windowOf)
    decreases |requests|
  {
    if requests != [] {
      assert requests[0] in requests;
      ServeIsFaithful(s, requests[0], limitOf, windowOf);
      ServeAllIsFaithful(Serve(s, requests[0]), requests[1..], limitOf, windowOf, requests[0].now);
    }
  }

  lemma EmptyIsFaithful(store: Store, limitOf: string -> nat, windowOf: string -> int)
    requires Suits(store, windowOf) && (store == Memory(map[]) || store == Redis(map[]))
    ensures Faithful(Limiter(store, []), limitOf, windowOf)
  {
    assert store.Redis? ==> RedisAgrees(map[], [], windowOf);
  }

  lemma FaithfulBound(s: Limiter, limitOf: string -> nat, windowOf: string -> int, bucket: string, from: int)
    requires Faithful(s, limitOf, windowOf)
    ensures var n := PassedIn(s.log, bucket, from, from + windowOf(bucket));
            && WithinBurst(n, limitOf(bucket), windowOf(bucket))
            && (limitOf(bucket) > 0 ==> n < 2 * limitOf(bucket))
  {
    assert windowOf(bucket) > 0;
    BurstBound(s.log, bucket, limitOf(bucket), windowOf(bucket), from);
  }

  // End to end, over either store: whatever requests arrive, a bucket never lets through more than the burst bound.
  lemma LimiterBound(store: Store, requests: seq<Request>, limitOf: string -> nat, windowOf: string -> int,
                     bucket: string,
                     from: int, start: int)
    requires store == Memory(map[]) || store == Redis(map[])
    requires Suits(store, windowOf) && InOrder(start, requests)
    requires forall r :: r in requests ==> WellFormed(r.checks) && Configured(r, limitOf, windowOf)
    ensures var limit, window := limitOf(bucket), windowOf(bucket);
            var n := PassedIn(ServeAll(Limiter(store, []), requests).log, bucket, from, from + window);
            && WithinBurst(n, limit, window)
            && (limit > 0 ==> n < 2 * limit)
  {
    EmptyIsFaithful(store, limitOf, windowOf);
    ServeAllIsFaithful(Limiter(store, []), requests, limitOf, windowOf, start);
    FaithfulBound(ServeAll(Limiter(store, []), requests), limitOf, windowOf, bucket, from);
  }
}
