/**
 * The two counter stores of the sliding-window rate limiter (backend/src/common/rateLimit/store.ts)
 * and the plain arrival history both of them must agree with.
 */
module RateLimitStore {
  import opened Base

  /** One counted arrival; `passed` records whether its request was let through. */
  datatype Arrival = Arrival(bucket: string, at: int, passed: bool)

  datatype WindowCounts = WindowCounts(currentCount: int, previousCount: int, windowStart: int)

  function SlidingWindowCount(counts: WindowCounts, window: int, now: int): real
    requires window > 0
  {
    var elapsed := now - counts.windowStart;
    var left := 1.0 - elapsed as real / window as real;
    counts.currentCount as real + counts.previousCount as real * if left < 0.0 then 0.0 else left
  }

  // ---------------------------------------------------------------- in memory

  datatype MemoryEntry = MemoryEntry(windowIndex: int, currentCount: int, previousCount: int, lastSeen: int)

  type Entries = map<string, MemoryEntry>

  const SWEEP_THRESHOLD := 5000
  const SWEEP_IDLE_SECONDS := 300

  function NextEntry(entry: Option<MemoryEntry>, index: int, now: int): MemoryEntry {
    if entry.None? || entry.value.windowIndex < index - 1 then MemoryEntry(index, 1, 0, now)
    else if entry.value.windowIndex == index - 1 then MemoryEntry(index, 1, entry.value.currentCount, now)
    else entry.value.(currentCount := entry.value.currentCount + 1, lastSeen := now)
  }

  predicate Idle(entry: MemoryEntry, now: int) {
    now - entry.lastSeen > SWEEP_IDLE_SECONDS
  }

  function Sweep(entries: Entries, now: int): Entries {
    map b | b in entries && !Idle(entries[b], now) :: entries[b]
  }

  function Find(entries: Entries, bucket: string): Option<MemoryEntry> {
    if bucket in entries then Some(entries[bucket]) else None
  }

  function MemoryIncrement(entries: Entries, bucket: string, window: int, now: int): (Entries, WindowCounts)
    requires window > 0
  {
    var index := now / window;
    var next := NextEntry(Find(entries, bucket), index, now);
    var stored := entries[bucket := next];
    (if |stored| > SWEEP_THRESHOLD then Sweep(stored, now) else stored,
     WindowCounts(next.currentCount, next.previousCount, index * window))
  }

  class InMemoryStore {
    var entries: Entries

    constructor ()
      ensures entries == map[]
    {
      entries := map[];
    }

    method Increment(bucket: string, window: int, now: int) returns (counts: WindowCounts)
      requires window > 0
      modifies this
      ensures (entries, counts) == MemoryIncrement(old(entries), bucket, window, now)
    {
      var index := now / window;
      var next: MemoryEntry;
      if bucket !in entries || entries[bucket].windowIndex < index - 1 {
        next := MemoryEntry(index, 1, 0, now);
      } else if entries[bucket].windowIndex == index - 1 {
        next := MemoryEntry(index, 1, entries[bucket].currentCount, now);
      } else {
        var entry := entries[bucket];
        next := entry.(currentCount := entry.currentCount + 1, lastSeen := now);
      }
      entries := entries[bucket := next];
      if |entries| > SWEEP_THRESHOLD {
        SweepIdle(now);
      }
      return WindowCounts(next.currentCount, next.previousCount, index * window);
    }

    method SweepIdle(now: int)
      modifies this
      ensures entries == Sweep(old(entries), now)
    {
      var todo := entries.Keys;
      while todo != {}
        invariant todo <= entries.Keys <= old(entries).Keys
        invariant forall b :: b in entries ==> entries[b] == old(entries)[b]
        invariant forall b :: b in old(entries) && b !in todo ==> (b in entries <==> !Idle(old(entries)[b], now))
        decreases todo
      {
        var bucket :| bucket in todo;
        todo := todo - {bucket};
        if Idle(entries[bucket], now) {
          entries := entries - {bucket};
        }
      }
    }
  }

  // ---------------------------------------------------------------- Redis

  datatype RedisKey = RedisKey(count: int, expiresAt: Option<int>)

  type Keys = map<(string, int), RedisKey>

  /** What INCR and GET see: a key past its expiry is gone. */
  function Live(keys: Keys, key: (string, int), now: int): Option<RedisKey> {
    if key !in keys then None
    else
      var expiry := keys[key].expiresAt;
      if expiry.Some? && expiry.value <= now then None else Some(keys[key])
  }

  function Incr(keys: Keys, key: (string, int), now: int): RedisKey {
    var live := Live(keys, key, now);
    if live.Some? then live.value.(count := live.value.count + 1) else RedisKey(1, None)
  }

  function RedisIncrement(keys: Keys, bucket: string, window: int, now: int): (Keys, WindowCounts)
    requires window > 0
  {
    var index := now / window;
    var bumped := Incr(keys, (bucket, index), now);
    var current := if bumped.count == 1 then bumped.(expiresAt := Some(now + window * 2)) else bumped;
    var stored := keys[(bucket, index) := current];
    var previous := Live(stored, (bucket, index - 1), now);
    (stored, WindowCounts(bumped.count, if previous.Some? then previous.value.count else 0, index * window))
  }

  class RedisStore {
    var keys: Keys

    constructor ()
      ensures keys == map[]
    {
      keys := map[];
    }

    method Increment(bucket: string, window: int, now: int) returns (counts: WindowCounts)
      requires window > 0
      modifies this
      ensures (keys, counts) == RedisIncrement(old(keys), bucket, window, now)
    {
      var index := now / window;
      var currentKey, previousKey := (bucket, index), (bucket, index - 1);
      var bumped := Incr(keys, currentKey, now);
      keys := keys[currentKey := bumped];
      if bumped.count == 1 {
        keys := keys[currentKey := bumped.(expiresAt := Some(now + window * 2))];
        assert keys == old(keys)[currentKey := bumped.(expiresAt := Some(now + window * 2))];
      }
      var previous := Live(keys, previousKey, now);
      return WindowCounts(bumped.count, if previous.Some? then previous.value.count else 0, index * window);
    }
  }

  // ---------------------------------------------------------------- the history

  function Hit(a: Arrival, bucket: string, lo: int, hi: int): int {
    if a.bucket == bucket && lo <= a.at < hi then 1 else 0
  }

  /** Arrivals of a bucket at times in [lo, hi). */
  function CountIn(log: seq<Arrival>, bucket: string, lo: int, hi: int): (n: nat)
    ensures n <= |log|
  {
    if log == [] then 0 else CountIn(log[..|log| - 1], bucket, lo, hi) + Hit(log[|log| - 1], bucket, lo, hi)
  }

  function HistoryCounts(log: seq<Arrival>, bucket: string, window: int, now: int): WindowCounts
    requires window > 0
  {
    var start := now / window * window;
    WindowCounts(CountIn(log, bucket, start, start + window), CountIn(log, bucket, start - window, start), start)
  }

  ghost predicate Sorted(log: seq<Arrival>) {
    forall i, j :: 0 <= i < j < |log| ==> log[i].at <= log[j].at
  }

  lemma CountSnoc(log: seq<Arrival>, a: Arrival, bucket: string, lo: int, hi: int)
    ensures CountIn(log + [a], bucket, lo, hi) == CountIn(log, bucket, lo, hi) + Hit(a, bucket, lo, hi)
  {
    assert (log + [a])[..|log|] == log;
  }

  lemma {:induction false} CountNone(log: seq<Arrival>, bucket: string, lo: int, hi: int)
    requires forall i :: 0 <= i < |log| && log[i].bucket == bucket ==> log[i].at < lo
    ensures CountIn(log, bucket, lo, hi) == 0
  {
    if log != [] {
      CountNone(log[..|log| - 1], bucket, lo, hi);
    }
  }

  // ---------------------------------------------------------------- memory agrees with history

  lemma WindowOf(x: int, w: int)
    requires w > 0
    ensures x / w * w <= x < x / w * w + w
  {
  }

  lemma ScaleMonotone(a: int, b: int, w: nat)
    requires a <= b
    ensures a * w <= b * w
  {
  }

  lemma IndexUnique(x: int, i: int, w: int)
    requires w > 0 && i * w <= x < i * w + w
    ensures i == x / w
  {
    WindowOf(x, w);
    if i < x / w {
      ScaleMonotone(i + 1, x / w, w);
    } else if x / w < i {
      ScaleMonotone(x / w + 1, i, w);
    }
  }

  lemma WindowsApart(x: int, y: int, w: int, k: nat)
    requires w > 0 && x / w + k <= y / w
    ensures x / w * w + k * w <= y / w * w
  {
    ScaleMonotone(x / w + k, y / w, w);
  }

  lemma WindowsGrow(x: int, y: int, w: int)
    requires w > 0 && x <= y
    ensures x / w <= y / w
  {
    if y / w < x / w {
      WindowsApart(y, x, w, 1);
    }
  }

  /** A swept entry would have started afresh anyway, whatever it holds. */
  ghost predicate SweepInvisible(window: int)
    requires window > 0
  {
    forall entry: MemoryEntry, now: int ::
      entry.currentCount >= 1 && entry.windowIndex == entry.lastSeen / window && Idle(entry, now) ==>
        NextEntry(Some(entry), now / window, now) == NextEntry(None, now / window, now)
  }

  // The idle sweep changes no count exactly for windows of at most 150 seconds.
  lemma SweepInvisibleExactly(window: int)
    requires window > 0
    ensures SweepInvisible(window) <==> window <= 150
  {
    if 2 * window <= SWEEP_IDLE_SECONDS {
      forall entry: MemoryEntry, now: int | entry.windowIndex == entry.lastSeen / window && Idle(entry, now)
        ensures entry.windowIndex < now / window - 1
      {
        IdleMeansApart(entry.lastSeen, now, window);
      }
    } else {
      var entry := MemoryEntry(0, 1, 0, 0);
      var now := SWEEP_IDLE_SECONDS + 1;
      WindowOf(now, window);
      assert 0 <= now / window <= 1;
      assert Idle(entry, now);
      assert NextEntry(Some(entry), now / window, now) != NextEntry(None, now / window, now);
    }
  }

  lemma IdleMeansApart(seen: int, now: int, window: int)
    requires 0 < 2 * window <= SWEEP_IDLE_SECONDS && now - seen > SWEEP_IDLE_SECONDS
    ensures seen / window + 2 <= now / window
    ensures seen < now / window * window - window
  {
    WindowOf(seen, window);
    IndexUnique(seen + 2 * window, seen / window + 2, window);
    WindowsGrow(seen + 2 * window, now, window);
    WindowsApart(seen, now, window, 2);
  }

  ghost predicate ShortWindows(windowOf: string -> int) {
    forall b :: 0 < 2 * windowOf(b) <= SWEEP_IDLE_SECONDS
  }

  ghost predicate EntryAgrees(entry: MemoryEntry, log: seq<Arrival>, bucket: string, window: int)
    requires window > 0
  {
    && entry.windowIndex == entry.lastSeen / window
    && (forall i :: 0 <= i < |log| && log[i].bucket == bucket ==> log[i].at <= entry.lastSeen)
    && var counts := HistoryCounts(log, bucket, window, entry.lastSeen);
       entry.currentCount == counts.currentCount && entry.previousCount == counts.previousCount
  }

  /** A stored entry holds its bucket's counts; a missing one has no arrival the sweep could not forget. */
  ghost predicate BucketAgrees(entries: Entries, log: seq<Arrival>, bucket: string, window: int)
    requires window > 0
  {
    if bucket in entries then EntryAgrees(entries[bucket], log, bucket, window)
    else forall i :: 0 <= i < |log| && log[i].bucket == bucket ==> log[|log| - 1].at - log[i].at > SWEEP_IDLE_SECONDS
  }

  ghost predicate MemoryAgrees(entries: Entries, log: seq<Arrival>, windowOf: string -> int)
    requires ShortWindows(windowOf)
  {
    && Sorted(log)
    && (forall b :: BucketAgrees(entries, log, b, windowOf(b)))
    && forall b :: b in entries ==> log != [] && entries[b].lastSeen <= log[|log| - 1].at
  }

  lemma SortedSnoc(log: seq<Arrival>, a: Arrival)
    requires Sorted(log) && (log != [] ==> log[|log| - 1].at <= a.at)
    ensures Sorted(log + [a])
  {
  }

  ghost predicate AllBefore(log: seq<Arrival>, bucket: string, t: int) {
    forall i :: 0 <= i < |log| && log[i].bucket == bucket ==> log[i].at < t
  }

  lemma CountsSnoc(log: seq<Arrival>, a: Arrival, window: int)
    requires window > 0
    ensures var was, after := HistoryCounts(log, a.bucket, window, a.at),
            HistoryCounts(log + [a], a.bucket, window, a.at);
            after == was.(currentCount := was.currentCount + 1)
  {
    var start := a.at / window * window;
    WindowOf(a.at, window);
    CountSnoc(log, a, a.bucket, start, start + window);
    CountSnoc(log, a, a.bucket, start - window, start);
  }

  lemma IdleCounts(log: seq<Arrival>, bucket: string, window: int, now: int)
    requires window > 0 && AllBefore(log, bucket, now / window * window - window)
    ensures HistoryCounts(log, bucket, window, now) == WindowCounts(0, 0, now / window * window)
  {
    var start := now / window * window;
    CountNone(log, bucket, start, start + window);
    CountNone(log, bucket, start - window, start);
  }

  // Moving to the next window turns the current count into the previous one.
  lemma NextWindowCounts(log: seq<Arrival>, bucket: string, window: int, seen: int, now: int)
    requires window > 0 && seen / window == now / window - 1 && AllBefore(log, bucket, now / window * window)
    ensures var before := HistoryCounts(log, bucket, window, seen);
            HistoryCounts(log, bucket, window, now) == WindowCounts(0, before.currentCount, now / window * window)
  {
    var start := now / window * window;
    assert seen / window * window == start - window;
    CountNone(log, bucket, start, start + window);
  }

  // The incremented entry holds the history's counts with the new arrival included.
  lemma NextEntryAgrees(entries: Entries, log: seq<Arrival>, a: Arrival, window: int)
    requires 0 < 2 * window <= SWEEP_IDLE_SECONDS
    requires Sorted(log) && (log != [] ==> log[|log| - 1].at <= a.at)
    requires BucketAgrees(entries, log, a.bucket, window)
    requires a.bucket in entries ==> log != [] && entries[a.bucket].lastSeen <= log[|log| - 1].at
    ensures EntryAgrees(NextEntry(Find(entries, a.bucket), a.at / window, a.at), log + [a], a.bucket, window)
  {
    CountsSnoc(log, a, window);
    if a.bucket !in entries {
      forall i | 0 <= i < |log| && log[i].bucket == a.bucket ensures log[i].at < a.at / window * window - window {
        IdleMeansApart(log[i].at, a.at, window);
      }
      IdleCounts(log, a.bucket, window, a.at);
    } else {
      var seen := entries[a.bucket].lastSeen;
      WindowOf(seen, window);
      WindowsGrow(seen, a.at, window);
      if seen / window < a.at / window - 1 {
        WindowsApart(seen, a.at, window, 2);
        IdleCounts(log, a.bucket, window, a.at);
      } else if seen / window == a.at / window - 1 {
        WindowsApart(seen, a.at, window, 1);
        NextWindowCounts(log, a.bucket, window, seen, a.at);
      }
    }
  }

  lemma OtherBucketAgrees(entries: Entries, log: seq<Arrival>, a: Arrival, b: string, window: int)
    requires 0 < window && b != a.bucket
    requires log != [] ==> log[|log| - 1].at <= a.at
    requires BucketAgrees(entries, log, b, window)
    ensures BucketAgrees(entries, log + [a], b, window)
  {
    if b in entries {
      var start := entries[b].lastSeen / window * window;
      CountSnoc(log, a, b, start, start + window);
      CountSnoc(log, a, b, start - window, start);
    }
  }

  lemma SweepAgrees(entries: Entries, log: seq<Arrival>, windowOf: string -> int)
    requires ShortWindows(windowOf) && MemoryAgrees(entries, log, windowOf) && log != []
    ensures MemoryAgrees(Sweep(entries, log[|log| - 1].at), log, windowOf)
  {
    var now := log[|log| - 1].at;
    var kept := Sweep(entries, now);
    forall b ensures BucketAgrees(kept, log, b, windowOf(b)) {
      assert BucketAgrees(entries, log, b, windowOf(b));
    }
  }

  lemma MemoryMatchesHistory(entries: Entries, log: seq<Arrival>, a: Arrival, windowOf: string -> int)
    requires ShortWindows(windowOf) && MemoryAgrees(entries, log, windowOf)
    requires log != [] ==> log[|log| - 1].at <= a.at
    ensures var (after, counts) := MemoryIncrement(entries, a.bucket, windowOf(a.bucket), a.at);
            && counts == HistoryCounts(log + [a], a.bucket, windowOf(a.bucket), a.at)
            && MemoryAgrees(after, log + [a], windowOf)
  {
    var window := windowOf(a.bucket);
    assert BucketAgrees(entries, log, a.bucket, window);
    NextEntryAgrees(entries, log, a, window);
    var stored := entries[a.bucket := NextEntry(Find(entries, a.bucket), a.at / window, a.at)];
    var log' := log + [a];
    SortedSnoc(log, a);
    forall b ensures BucketAgrees(stored, log', b, windowOf(b)) {
      if b != a.bucket {
        assert BucketAgrees(entries, log, b, windowOf(b));
        OtherBucketAgrees(entries, log, a, b, windowOf(b));
      }
    }
    assert MemoryAgrees(stored, log', windowOf);
    assert log'[|log'| - 1] == a;
    SweepAgrees(stored, log', windowOf);
  }

  // ---------------------------------------------------------------- Redis agrees with history

  ghost predicate KeyAgrees(keys: Keys, log: seq<Arrival>, bucket: string, index: int, window: int) {
    var n := CountIn(log, bucket, index * window, index * window + window);
    && ((bucket, index) in keys <==> n > 0)
    && ((bucket, index) in keys ==>
          var key := keys[(bucket, index)];
          key.count == n && key.expiresAt.Some? && key.expiresAt.value >= index * window + 2 * window)
  }

  ghost predicate RedisAgrees(keys: Keys, log: seq<Arrival>, windowOf: string -> int) {
    forall b, index :: KeyAgrees(keys, log, b, index, windowOf(b))
  }

  // The two-window expiry never hides a key that is still needed, for any window length.
  lemma RedisMatchesHistory(keys: Keys, log: seq<Arrival>, a: Arrival, windowOf: string -> int)
    requires (forall b :: windowOf(b) > 0) && RedisAgrees(keys, log, windowOf)
    ensures var (after, counts) := RedisIncrement(keys, a.bucket, windowOf(a.bucket), a.at);
            && counts == HistoryCounts(log + [a], a.bucket, windowOf(a.bucket), a.at)
            && RedisAgrees(after, log + [a], windowOf)
  {
    var window := windowOf(a.bucket);
    var index := a.at / window;
    var start := index * window;
    WindowOf(a.at, window);
    assert (index - 1) * window == start - window;
    assert KeyAgrees(keys, log, a.bucket, index, window) && KeyAgrees(keys, log, a.bucket, index - 1, window);
    CountSnoc(log, a, a.bucket, start, start + window);
    CountSnoc(log, a, a.bucket, start - window, start);
    var after := RedisIncrement(keys, a.bucket, window, a.at).0;
    forall b, i ensures KeyAgrees(after, log + [a], b, i, windowOf(b)) {
      assert KeyAgrees(keys, log, b, i, windowOf(b));
      CountSnoc(log, a, b, i * windowOf(b), i * windowOf(b) + windowOf(b));
      if b == a.bucket && i != index {
        if i * window <= a.at < i * window + window {
          IndexUnique(a.at, i, window);
        }
      }
    }
  }

  // ---------------------------------------------------------------- both stores, over any arrival sequence

  function MemoryRun(log: seq<Arrival>, windowOf: string -> int): Entries
    requires forall b :: windowOf(b) > 0
  {
    if log == [] then map[]
    else
      var last := log[|log| - 1];
      MemoryIncrement(MemoryRun(log[..|log| - 1], windowOf), last.bucket, windowOf(last.bucket), last.at).0
  }

  function RedisRun(log: seq<Arrival>, windowOf: string -> int): Keys
    requires forall b :: windowOf(b) > 0
  {
    if log == [] then map[]
    else
      var last := log[|log| - 1];
      RedisIncrement(RedisRun(log[..|log| - 1], windowOf), last.bucket, windowOf(last.bucket), last.at).0
  }

  lemma {:induction false} RunsAgree(log: seq<Arrival>, windowOf: string -> int)
    requires ShortWindows(windowOf) && Sorted(log)
    ensures MemoryAgrees(MemoryRun(log, windowOf), log, windowOf)
    ensures RedisAgrees(RedisRun(log, windowOf), log, windowOf)
  {
    if log != [] {
      var before, last := log[..|log| - 1], log[|log| - 1];
      assert log == before + [last];
      RunsAgree(before, windowOf);
      MemoryMatchesHistory(MemoryRun(before, windowOf), before, last, windowOf);
      RedisMatchesHistory(RedisRun(before, windowOf), before, last, windowOf);
    }
  }

  // After any arrival sequence, the next arrival gets the same counts from both stores and from the history.
  lemma StoresAgree(log: seq<Arrival>, next: Arrival, windowOf: string -> int)
    requires ShortWindows(windowOf) && Sorted(log + [next])
    ensures var window := windowOf(next.bucket);
            var expected := HistoryCounts(log + [next], next.bucket, window, next.at);
            && MemoryIncrement(MemoryRun(log, windowOf), next.bucket, window, next.at).1 == expected
            && RedisIncrement(RedisRun(log, windowOf), next.bucket, window, next.at).1 == expected
  {
    forall i, j | 0 <= i < j < |log| ensures log[i].at <= log[j].at {
      assert (log + [next])[i].at <= (log + [next])[j].at;
    }
    assert log != [] ==> (log + [next])[|log| - 1].at <= (log + [next])[|log|].at;
    RunsAgree(log, windowOf);
    MemoryMatchesHistory(MemoryRun(log, windowOf), log, next, windowOf);
    RedisMatchesHistory(RedisRun(log, windowOf), log, next, windowOf);
  }
}
