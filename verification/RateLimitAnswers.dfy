/** What the limiter tells its callers, and what its stores keep and forget. */
module RateLimitAnswers {
  import opened Base
  import opened RateLimitStore
  import opened RateLimiter

  // ---------------------------------------------------------------- remaining and retry figures

  // The reported remainder is how many more requests the estimate leaves room for.
  lemma RemainingExactly(check: Check, counts: WindowCounts, now: int, more: nat)
    requires check.window > 0 && counts.windowStart <= now < counts.windowStart + check.window
    requires more <= check.limit
    ensures var t := Judge(check, counts, now);
            && t.check == check && t.remaining >= 0 && t.reset == counts.windowStart + check.window
            && (more > 0 ==> (more <= t.remaining <==> Fits(counts, check.limit - more, check.window, now)))
  {
    var lower := Check(check.bucket, check.limit - more, check.window);
    ExceededMeansUnfit(lower, counts, now);
    var left := check.limit as real - SlidingWindowCount(counts, check.window, now);
    assert more <= left.Floor <==> more as real <= left;
  }

  // Once its window has passed, what came before it weighs nothing; it never counts against what came in it.
  lemma PreviousNeverCredits(counts: WindowCounts, window: int, now: int)
    requires window > 0 && counts.previousCount >= 0
    ensures SlidingWindowCount(counts, window, now) >= counts.currentCount as real
    ensures now >= counts.windowStart + window ==>
              SlidingWindowCount(counts, window, now) == counts.currentCount as real
  {
    var share := (now - counts.windowStart) as real / window as real;
    if now >= counts.windowStart + window {
      assert share >= 1.0;
    }
  }

  // Either store counts an arrival in the window it falls into.
  lemma CountsStart(store: Store, bucket: string, window: int, now: int)
    requires window > 0
    ensures Increment(store, bucket, window, now).1.windowStart == now / window * window
  {
  }

  lemma {:induction false} StartsOfAll(store: Store, checks: seq<Check>, now: int)
    requires WellFormed(checks)
    ensures forall i :: 0 <= i < |checks| ==>
              checks[i].window > 0 && CountAll(store, checks, now).1[i].windowStart
                                      == now / checks[i].window * checks[i].window
  {
    if checks != [] {
      var last, front := checks[|checks| - 1], checks[..|checks| - 1];
      StartsOfAll(store, front, now);
      CountsStart(CountAll(store, front, now).0, last.bucket, last.window, now);
      assert last in checks;
      assert forall i :: 0 <= i < |front| ==> front[i] == checks[i];
    }
  }

  /** The seconds from `now` to the next multiple of the window: at least one, at most the whole window. */
  predicate ReachesNextWindow(now: int, wait: int, window: int)
    requires window > 0
  {
    1 <= wait <= window && (now + wait) % window == 0
  }

  lemma WaitToBoundary(now: int, window: int)
    requires window > 0
    ensures ReachesNextWindow(now, now / window * window + window - now, window)
  {
    WindowOf(now, window);
    var next := now / window + 1;
    assert now / window * window + window == next * window;
    assert next * window % window == 0 by {
      IndexUnique(next * window, next, window);
    }
  }

  // A rejection names the first tier over its limit and asks to wait out exactly the rest of that tier's window; every
  // tier's reset is the end of its window.
  lemma AnswersExactly(store: Store, r: Request, verdict: Verdict)
    requires WellFormed(r.checks) && Follows(verdict, Evaluate(store, r).1, r.now)
    ensures var results := Evaluate(store, r).1;
            && |results| == |r.checks|
            && (forall i :: 0 <= i < |results| ==>
                  && results[i].check == r.checks[i] && r.checks[i].window > 0
                  && ReachesNextWindow(r.now, results[i].reset - r.now, r.checks[i].window))
            && (verdict.Rejected? ==>
                  && verdict.violated < |r.checks| && r.checks[verdict.violated].window > 0
                  && ReachesNextWindow(r.now, verdict.retryAfter, r.checks[verdict.violated].window))
  {
    StartsOfAll(store, r.checks, r.now);
    forall i | 0 <= i < |r.checks|
      ensures r.checks[i].window > 0
      ensures ReachesNextWindow(r.now, Evaluate(store, r).1[i].reset - r.now, r.checks[i].window)
    {
      WaitToBoundary(r.now, r.checks[i].window);
    }
  }

  // ---------------------------------------------------------------- what the stores keep

  // The in-memory store forgets only when it holds more than 5000 buckets, and then exactly those not seen for more
  // than five minutes: afterwards it is small, or everything in it is recent.
  lemma MemoryForgetsExactly(entries: Entries, bucket: string, window: int, now: int)
    requires window > 0
    ensures var after := MemoryIncrement(entries, bucket, window, now).0;
            && bucket in after && after[bucket].lastSeen == now
            && (|after| <= 5000 || forall b :: b in after ==> now - after[b].lastSeen <= 300)
            && (forall b :: b in after && b != bucket ==> b in entries && after[b] == entries[b])
            && (forall b :: b in entries && b !in after ==> now - entries[b].lastSeen > 300)
            && ((exists b :: b in entries && b !in after) ==> |entries.Keys + {bucket}| > 5000)
  {
    var index := now / window;
    var stored := entries[bucket := NextEntry(Find(entries, bucket), index, now)];
    assert stored.Keys == entries.Keys + {bucket};
    StampedNow(Find(entries, bucket), index, now);
  }

  lemma StampedNow(entry: Option<MemoryEntry>, index: int, now: int)
    ensures NextEntry(entry, index, now).lastSeen == now
  {
  }

  // A Redis key lives for two windows from its first hit, however often it is hit again, and a hit touches no other
  // key.
  lemma KeyLivesTwoWindows(keys: Keys, bucket: string, window: int, now: int, later: int)
    requires window > 0 && now <= later
    ensures var (key, after) := ((bucket, now / window), RedisIncrement(keys, bucket, window, now).0);
            && key in after && after.Keys == keys.Keys + {key}
            && (forall k :: k in keys && k != key ==> after[k] == keys[k])
            && (Live(keys, key, now).None? ==> (Live(after, key, later).Some? <==> later < now + 2 * window))
            && (Live(keys, key, now).Some? && keys[key].count > 0 ==>
                  (Live(after, key, later).Some? <==> Live(keys, key, later).Some?))
  {
  }
}
