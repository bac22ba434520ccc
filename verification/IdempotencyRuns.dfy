/** What the idempotency protocol guarantees over every run of requests, failed transactions and crashes. */
module IdempotencyRuns {
  import opened Base
  import opened MarketplaceService
  import opened Idempotency

  datatype Step = Step(request: Request, at: Clock, fault: Fault)

  const GENESIS := Backend(map[], [], Domain(map[], map[], map[]))

  function After(b: Backend, s: Step, ttl: int): Outcome {
    b.Handle(s.request, s.at, s.fault, ttl)
  }

  function Run(b: Backend, steps: seq<Step>, ttl: int): Backend
    decreases |steps|
  {
    if steps == [] then b else Run(After(b, steps[0], ttl).after, steps[1..], ttl)
  }

  /** The payloads the domain transactions of a run committed, in order. */
  function Commits(b: Backend, steps: seq<Step>, ttl: int): seq<Payload>
    decreases |steps|
  {
    if steps == [] then []
    else
      var first := After(b, steps[0], ttl);
      (if first.committed.Some? then [first.committed.value] else []) + Commits(first.after, steps[1..], ttl)
  }

  predicate Ticks(at: Clock, clock: int) {
    clock <= at.handler <= at.service <= at.chain
  }

  /** The clock never goes back. */
  predicate Timely(steps: seq<Step>, clock: int)
    decreases |steps|
  {
    steps == [] || (Ticks(steps[0].at, clock) && Timely(steps[1..], steps[0].at.chain))
  }

  function Last(steps: seq<Step>, clock: int): int {
    if steps == [] then clock else steps[|steps| - 1].at.chain
  }

  // ---------------------------------------------------------------- the chain log

  ghost predicate InOrder(chain: seq<Event>, clock: int) {
    && (forall i, j :: 0 <= i < j < |chain| ==> chain[i].createdAt <= chain[j].createdAt)
    && (forall i :: 0 <= i < |chain| ==> chain[i].createdAt <= clock)
  }

  /** Two submissions under one key are at least the time to live apart. */
  ghost predicate Spaced(chain: seq<Event>, ttl: int) {
    forall i, j :: 0 <= i < j < |chain| && chain[i].dedupId == chain[j].dedupId ==>
      chain[i].createdAt + ttl <= chain[j].createdAt
  }

  function PrefixOf(p: Payload): string {
    match p
    case ListingCreated(_, _, _, _, _, _) => "lst"
    case PurchaseSettled(_, _, _, _, _, _) => "pur"
    case CreditsRetired(_, _, _, _, _, _) => "ret"
  }

  /** A submission carries the id derived from its key, and a purchase names a listing that exists. */
  predicate Backed(e: Event, d: Domain) {
    && e.payload.id == Derived(PrefixOf(e.payload), e.dedupId)
    && Apply(d, e.payload).Ok?
  }

  /** A cached response reports the latest submission under its key. */
  predicate Cached(b: Backend, key: string)
    requires key in b.records
  {
    var record := b.records[key];
    record.reply.Some? ==>
      && LatestEvent(b.chain, key).Some?
      && record.reply.value.endpoint == record.fingerprint.endpoint
      && Reports(record.reply.value, LatestEvent(b.chain, key).value.payload)
  }

  predicate Reports(reply: Reply, p: Payload) {
    reply.payload == p && (reply.endpoint != Listings ==> reply.remaining == None)
  }

  ghost predicate Coherent(b: Backend, clock: int, ttl: int) {
    && InOrder(b.chain, clock)
    && Spaced(b.chain, ttl)
    && (forall e :: e in b.chain ==> Backed(e, b.domain))
    && (forall key :: key in b.records ==> Cached(b, key))
  }

  lemma {:induction false} LatestIsLast(chain: seq<Event>, key: string, i: nat)
    requires i < |chain| && chain[i].dedupId == key
    ensures LatestEvent(chain, key).Some?
    ensures exists j :: i <= j < |chain| && chain[j] == LatestEvent(chain, key).value
    decreases |chain|
  {
    var last := |chain| - 1;
    if chain[last].dedupId == key {
      assert chain[last] == LatestEvent(chain, key).value;
    } else {
      LatestIsLast(chain[..last], key, i);
      var j :| i <= j < last && chain[..last][j] == LatestEvent(chain[..last], key).value;
      assert chain[j] == LatestEvent(chain, key).value;
    }
  }

  lemma LatestAfter(chain: seq<Event>, e: Event, key: string)
    ensures LatestEvent(chain + [e], key) == if e.dedupId == key then Some(e) else LatestEvent(chain, key)
  {
    assert (chain + [e])[..|chain|] == chain;
  }

  // ---------------------------------------------------------------- one request

  // A payload stays applicable when another one is applied.
  lemma ApplicableAfter(d: Domain, p: Payload, q: Payload)
    requires Apply(d, p).Ok? && Apply(d, q).Ok?
    ensures Apply(Apply(d, p).value, q).Ok?
  {
  }

  lemma CompleteIsCoherent(b: Backend, key: string, fingerprint: Fingerprint, reply: Reply, now: int, clock: int,
                           ttl: int)
    requires Coherent(b, clock, ttl)
    requires key in b.records ==> b.records[key].fingerprint == fingerprint
    requires reply.endpoint == fingerprint.endpoint
    requires LatestEvent(b.chain, key).Some? && Reports(reply, LatestEvent(b.chain, key).value.payload)
    ensures Coherent(b.Complete(key, fingerprint, reply, now, ttl), clock, ttl)
  {
    var after := b.Complete(key, fingerprint, reply, now, ttl);
    forall k | k in after.records ensures Cached(after, k) {
      if k != key {
        assert Cached(b, k);
      }
    }
  }

  lemma ForgetIsCoherent(b: Backend, key: string, clock: int, ttl: int)
    requires Coherent(b, clock, ttl)
    ensures Coherent(b.Forget(key), clock, ttl)
  {
    var after := b.Forget(key);
    forall k | k in after.records ensures Cached(after, k) {
      assert Cached(b, k);
    }
  }

  lemma CommitIsCoherent(b: Backend, p: Payload, clock: int, ttl: int)
    requires Coherent(b, clock, ttl) && Apply(b.domain, p).Ok?
    ensures Coherent(b.(domain := Apply(b.domain, p).value), clock, ttl)
  {
    var after := b.(domain := Apply(b.domain, p).value);
    forall e | e in after.chain ensures Backed(e, after.domain) {
      ApplicableAfter(b.domain, p, e.payload);
    }
    forall k | k in after.records ensures Cached(after, k) {
      assert Cached(b, k);
    }
  }

  // A submission leaves its key's record without a response until the rows are written.
  lemma SubmitIsCoherent(b: Backend, key: string, p: Payload, now: int, clock: int, ttl: int)
    requires Coherent(b, clock, ttl) && clock <= now
    requires LatestEvent(b.chain, key).Some? ==> LatestEvent(b.chain, key).value.createdAt + ttl <= now
    requires key in b.records ==> b.records[key].reply.None?
    requires Backed(Event(key, p, now), b.domain)
    ensures Coherent(b.Submit(key, p, now), now, ttl)
    ensures LatestEvent(b.Submit(key, p, now).chain, key) == Some(Event(key, p, now))
  {
    var after := b.Submit(key, p, now);
    LatestAfter(b.chain, Event(key, p, now), key);
    forall i | 0 <= i < |b.chain| && b.chain[i].dedupId == key ensures b.chain[i].createdAt + ttl <= now {
      LatestIsLast(b.chain, key, i);
    }
    forall k | k in after.records ensures Cached(after, k) {
      assert Cached(b, k);
      LatestAfter(b.chain, Event(key, p, now), k);
    }
  }

  /** What one request leaves behind: a coherent state, and an answer that reports its key's latest submission. */
  ghost predicate Settled(b: Backend, key: string, endpoint: Endpoint, o: Outcome, clock: int, ttl: int) {
    && Coherent(o.after, clock, ttl)
    && b.chain <= o.after.chain
    && (o.response.Success() ==>
          && LatestEvent(o.after.chain, key).Some?
          && o.response.reply.endpoint == endpoint
          && Reports(o.response.reply, LatestEvent(o.after.chain, key).value.payload))
    && (match o.committed
        case None => o.after.domain == b.domain
        case Some(p) =>
          && Apply(b.domain, p) == Ok(o.after.domain)
          && LatestEvent(o.after.chain, key).Some? && LatestEvent(o.after.chain, key).value.payload == p)
  }

  lemma Later(b: Backend, clock: int, later: int, ttl: int)
    requires Coherent(b, clock, ttl) && clock <= later
    ensures Coherent(b, later, ttl)
  {
  }

  lemma ReconcileSettles(b: Backend, r: Request, e: Event, now: int, fault: Fault, clock: int, ttl: int)
    requires Coherent(b, clock, ttl) && LatestEvent(b.chain, r.key) == Some(e)
    requires r.key in b.records ==> b.records[r.key].fingerprint == Fingerprint(r.endpoint, r.body)
    ensures Settled(b, r.key, r.endpoint, b.Reconcile(r, e, now, fault, ttl), clock, ttl)
  {
    if !fault.txFails && fault.writes > 0 && b.Rebuild(r.endpoint, e.payload).Ok? {
      if Matches(r.endpoint, e.payload) {
        CommitIsCoherent(b, e.payload, clock, ttl);
      }
      var next := b.(domain := b.Rebuild(r.endpoint, e.payload).value);
      assert Coherent(next, clock, ttl);
      if fault.writes > 1 {
        CompleteIsCoherent(next, r.key, Fingerprint(r.endpoint, r.body), Render(r.endpoint, e.payload, next.domain),
            now, clock, ttl);
      }
    }
  }

  /** No submission of the key is recent, and its record, if any, waits for a response to this very request. */
  predicate Due(b: Backend, r: Request, now: int, ttl: int) {
    && (LatestEvent(b.chain, r.key).Some? ==> LatestEvent(b.chain, r.key).value.createdAt + ttl <= now)
    && (r.key in b.records ==>
          b.records[r.key].fingerprint == Fingerprint(r.endpoint, r.body) && b.records[r.key].reply.None?)
  }

  lemma SettledEarlier(b: Backend, c: Backend, key: string, endpoint: Endpoint, o: Outcome, clock: int, ttl: int)
    requires Settled(c, key, endpoint, o, clock, ttl)
    requires b.chain <= c.chain && b.domain == c.domain
    ensures Settled(b, key, endpoint, o, clock, ttl)
  {
  }

  // The rows committed, and then the response cached.
  lemma CommitSettles(b: Backend, r: Request, p: Payload, now: int, clock: int, ttl: int)
    requires Coherent(b, clock, ttl) && Apply(b.domain, p).Ok?
    requires LatestEvent(b.chain, r.key).Some? && LatestEvent(b.chain, r.key).value.payload == p
    requires r.key in b.records ==> b.records[r.key].fingerprint == Fingerprint(r.endpoint, r.body)
    ensures var next := b.(domain := Apply(b.domain, p).value);
            var reply := Render(r.endpoint, p, next.domain);
            && Settled(b, r.key, r.endpoint, Outcome(next, Crashed, Some(p)), clock, ttl)
            && Settled(b, r.key, r.endpoint,
                       Outcome(next.Complete(r.key, Fingerprint(r.endpoint, r.body), reply, now, ttl), Executed(reply),
                           Some(p)),
                       clock, ttl)
  {
    CommitIsCoherent(b, p, clock, ttl);
    var next := b.(domain := Apply(b.domain, p).value);
    CompleteIsCoherent(next, r.key, Fingerprint(r.endpoint, r.body), Render(r.endpoint, p, next.domain), now, clock,
        ttl);
  }

  lemma SettleSettles(b: Backend, r: Request, p: Payload, now: int, fault: Fault, clock: int, ttl: int)
    requires Coherent(b, clock, ttl) && Apply(b.domain, p).Ok?
    requires LatestEvent(b.chain, r.key).Some? && LatestEvent(b.chain, r.key).value.payload == p
    requires r.key in b.records ==> b.records[r.key].fingerprint == Fingerprint(r.endpoint, r.body)
    ensures Settled(b, r.key, r.endpoint, b.Settle(r, p, now, fault, ttl), clock, ttl)
  {
    if fault.txFails {
      ForgetIsCoherent(b, r.key, clock, ttl);
    } else {
      CommitSettles(b, r, p, now, clock, ttl);
    }
  }

  lemma GiveUpSettles(b: Backend, r: Request, status: int, writes: nat, at: Clock, ttl: int)
    requires Coherent(b, at.handler, ttl) && Ticks(at, at.handler)
    ensures Settled(b, r.key, r.endpoint, b.GiveUp(r.key, status, writes), at.chain, ttl)
  {
    Later(b, at.handler, at.chain, ttl);
    ForgetIsCoherent(b, r.key, at.chain, ttl);
  }

  // What the service submits is backed by the rows it read.
  lemma SendSettles(b: Backend, r: Request, at: Clock, fault: Fault, ttl: int)
    requires Coherent(b, at.handler, ttl) && Ticks(at, at.handler)
    requires Valid(r.endpoint, r.body) && b.Prepare(r, at.service).Ok?
    requires Due(b, r, at.handler, ttl)
    ensures var p := b.Prepare(r, at.service).value;
            var sent := b.Submit(r.key, p, at.chain);
            Settled(sent, r.key, r.endpoint, sent.Settle(r, p, at.handler, fault, ttl), at.chain, ttl)
  {
    var p := b.Prepare(r, at.service).value;
    assert Backed(Event(r.key, p, at.chain), b.domain);
    SubmitIsCoherent(b, r.key, p, at.chain, at.handler, ttl);
    SettleSettles(b.Submit(r.key, p, at.chain), r, p, at.handler, fault, at.chain, ttl);
  }

  lemma PerformSettles(b: Backend, r: Request, at: Clock, fault: Fault, ttl: int)
    requires Coherent(b, at.handler, ttl) && Ticks(at, at.handler) && Valid(r.endpoint, r.body)
    requires Due(b, r, at.handler, ttl)
    ensures Settled(b, r.key, r.endpoint, b.Perform(r, at, fault, ttl), at.chain, ttl)
  {
    var prepared := b.Prepare(r, at.service);
    var o := b.Perform(r, at, fault, ttl);
    if prepared.Err? {
      assert o == b.GiveUp(r.key, prepared.error, fault.writes);
      GiveUpSettles(b, r, prepared.error, fault.writes, at, ttl);
    } else if fault.writes == 0 {
      assert o == Outcome(b, Crashed, None);
      Later(b, at.handler, at.chain, ttl);
    } else {
      var left := Fault(fault.txFails, fault.writes - 1);
      var sent := b.Submit(r.key, prepared.value, at.chain);
      assert o == sent.Settle(r, prepared.value, at.handler, left, ttl);
      SendSettles(b, r, at, left, ttl);
      SettledEarlier(b, sent, r.key, r.endpoint, o, at.chain, ttl);
    }
  }

  lemma ExecuteSettles(b: Backend, r: Request, at: Clock, fault: Fault, ttl: int)
    requires Coherent(b, at.handler, ttl) && Ticks(at, at.handler) && Valid(r.endpoint, r.body)
    requires Due(b, r, at.handler, ttl)
    ensures Settled(b, r.key, r.endpoint, b.Execute(r, at, fault, ttl), at.chain, ttl)
  {
    if r.key in b.records {
      PerformSettles(b, r, at, fault, ttl);
    } else if fault.writes > 0 {
      var begun := b.Begin(r.key, Fingerprint(r.endpoint, r.body), at.handler, ttl);
      forall k | k in begun.records ensures Cached(begun, k) {
        if k != r.key {
          assert Cached(b, k);
        }
      }
      PerformSettles(begun, r, at, Fault(fault.txFails, fault.writes - 1), ttl);
    }
  }

  lemma ProceedSettles(b: Backend, r: Request, at: Clock, fault: Fault, ttl: int)
    requires Coherent(b, at.handler, ttl) && Ticks(at, at.handler)
    ensures Settled(b, r.key, r.endpoint, b.Proceed(r, at, fault, ttl), at.chain, ttl)
  {
    var event := LatestEvent(b.chain, r.key);
    Later(b, at.handler, at.chain, ttl);
    if r.key in b.records && (b.records[r.key].fingerprint != Fingerprint(r.endpoint, r.body)
                              || b.records[r.key].reply.Some? || event.None?) {
      assert Cached(b, r.key);
    } else if event.Some? && at.handler - event.value.createdAt < ttl {
      ReconcileSettles(b, r, event.value, at.handler, fault, at.chain, ttl);
    } else if Valid(r.endpoint, r.body) {
      ExecuteSettles(b, r, at, fault, ttl);
    }
  }

  lemma StepSettles(b: Backend, s: Step, clock: int, ttl: int)
    requires Coherent(b, clock, ttl) && Ticks(s.at, clock)
    ensures Settled(b, s.request.key, s.request.endpoint, After(b, s, ttl), s.at.chain, ttl)
  {
    var key := s.request.key;
    Later(b, clock, s.at.handler, ttl);
    Later(b, s.at.handler, s.at.chain, ttl);
    if ValidKey(key) {
      if key in b.records && b.records[key].expiresAt <= s.at.handler {
        if s.fault.writes > 0 {
          ForgetIsCoherent(b, key, s.at.handler, ttl);
          ProceedSettles(b.Forget(key), s.request, s.at, Fault(s.fault.txFails, s.fault.writes - 1), ttl);
        }
      } else {
        ProceedSettles(b, s.request, s.at, s.fault, ttl);
      }
    }
  }

  // ---------------------------------------------------------------- every run

  lemma {:induction false} EveryRunIsCoherent(b: Backend, steps: seq<Step>, clock: int, ttl: int)
    requires Coherent(b, clock, ttl) && Timely(steps, clock)
    ensures Coherent(Run(b, steps, ttl), Last(steps, clock), ttl)
    ensures b.chain <= Run(b, steps, ttl).chain
    decreases |steps|
  {
    if steps != [] {
      StepSettles(b, steps[0], clock, ttl);
      var next := After(b, steps[0], ttl).after;
      EveryRunIsCoherent(next, steps[1..], steps[0].at.chain, ttl);
      PrefixOfPrefix(b.chain, next.chain, Run(next, steps[1..], ttl).chain);
    }
  }

  // Whatever fails and whenever the process dies, a key is submitted at most once per time to live.
  lemma SubmissionsAreSpaced(steps: seq<Step>, clock: int, ttl: int)
    requires Timely(steps, clock)
    ensures Spaced(Run(GENESIS, steps, ttl).chain, ttl)
  {
    EveryRunIsCoherent(GENESIS, steps, clock, ttl);
  }

  // ---------------------------------------------------------------- the same answer until the next submission

  function Submissions(chain: seq<Event>, key: string): nat {
    if chain == [] then 0
    else Submissions(chain[..|chain| - 1], key) + if chain[|chain| - 1].dedupId == key then 1 else 0
  }

  lemma {:induction false} SubmissionsGrow(chain: seq<Event>, longer: seq<Event>, key: string)
    requires chain <= longer
    ensures Submissions(chain, key) <= Submissions(longer, key)
    ensures Submissions(chain, key) == Submissions(longer, key) ==> LatestEvent(chain, key) == LatestEvent(longer, key)
    ensures Submissions(chain, key) < Submissions(longer, key) ==>
              exists i :: |chain| <= i < |longer| && longer[i].dedupId == key
    decreases |longer|
  {
    if |chain| < |longer| {
      SubmissionsGrow(chain, longer[..|longer| - 1], key);
    } else {
      assert chain == longer;
    }
  }

  lemma {:induction false} RunSplits(b: Backend, steps: seq<Step>, i: nat, ttl: int)
    requires i <= |steps|
    ensures Run(b, steps, ttl) == Run(Run(b, steps[..i], ttl), steps[i..], ttl)
    decreases |steps|
  {
    if i > 0 {
      assert steps[1..][..i - 1] == steps[..i][1..];
      assert steps[1..][i - 1..] == steps[i..];
      RunSplits(After(b, steps[0], ttl).after, steps[1..], i - 1, ttl);
    } else {
      assert steps[..0] == [] && steps[0..] == steps;
    }
  }

  lemma {:induction false} TimelySplits(steps: seq<Step>, i: nat, clock: int)
    requires i <= |steps| && Timely(steps, clock)
    ensures Timely(steps[..i], clock) && Timely(steps[i..], Last(steps[..i], clock))
    decreases |steps|
  {
    if i > 0 {
      assert steps[1..][..i - 1] == steps[..i][1..];
      assert steps[1..][i - 1..] == steps[i..];
      TimelySplits(steps[1..], i - 1, steps[0].at.chain);
    } else {
      assert steps[..0] == [] && steps[0..] == steps;
    }
  }

  /** The i-th request of a run and what became of it. */
  function Nth(b: Backend, steps: seq<Step>, i: nat, ttl: int): Outcome
    requires i < |steps|
  {
    After(Run(b, steps[..i], ttl), steps[i], ttl)
  }

  lemma NthSettles(b: Backend, steps: seq<Step>, i: nat, clock: int, ttl: int)
    requires Coherent(b, clock, ttl) && Timely(steps, clock) && i < |steps|
    ensures Settled(Run(b, steps[..i], ttl), steps[i].request.key, steps[i].request.endpoint, Nth(b, steps, i, ttl),
                    steps[i].at.chain, ttl)
  {
    TimelySplits(steps, i, clock);
    EveryRunIsCoherent(b, steps[..i], clock, ttl);
    StepSettles(Run(b, steps[..i], ttl), steps[i], Last(steps[..i], clock), ttl);
  }

  lemma NextRun(b: Backend, steps: seq<Step>, i: nat, ttl: int)
    requires i < |steps|
    ensures Run(b, steps[..i + 1], ttl) == Nth(b, steps, i, ttl).after
  {
    var head := steps[..i + 1];
    assert head[..i] == steps[..i] && head[i..] == [steps[i]] && [steps[i]][1..] == [];
    RunSplits(b, head, i, ttl);
  }

  lemma NextGrows(b: Backend, steps: seq<Step>, j: nat, clock: int, ttl: int)
    requires Coherent(b, clock, ttl) && Timely(steps, clock) && 0 < j < |steps|
    ensures Nth(b, steps, j - 1, ttl).after.chain <= Nth(b, steps, j, ttl).after.chain
  {
    NextRun(b, steps, j - 1, ttl);
    NthSettles(b, steps, j, clock, ttl);
  }

  lemma PrefixOfPrefix<T>(x: seq<T>, y: seq<T>, z: seq<T>)
    requires x <= y <= z
    ensures x <= z
  {
  }

  lemma {:induction false} ChainOnlyGrows(b: Backend, steps: seq<Step>, i: nat, j: nat, clock: int, ttl: int)
    requires Coherent(b, clock, ttl) && Timely(steps, clock) && i <= j < |steps|
    ensures Nth(b, steps, i, ttl).after.chain <= Nth(b, steps, j, ttl).after.chain
    decreases j
  {
    if i < j {
      ChainOnlyGrows(b, steps, i, j - 1, clock, ttl);
      NextGrows(b, steps, j, clock, ttl);
      PrefixOfPrefix(Nth(b, steps, i, ttl).after.chain, Nth(b, steps, j - 1, ttl).after.chain,
          Nth(b, steps, j, ttl).after.chain);
    }
  }

  // Between two submissions of a key, every successful answer an endpoint gives for it reports the same payload.
  lemma SameAnswerBetweenSubmissions(b: Backend, steps: seq<Step>, i: nat, j: nat, clock: int, ttl: int)
    requires Coherent(b, clock, ttl) && Timely(steps, clock) && i <= j < |steps|
    requires steps[i].request.key == steps[j].request.key && steps[i].request.endpoint == steps[j].request.endpoint
    requires Nth(b, steps, i, ttl).response.Success() && Nth(b, steps, j, ttl).response.Success()
    requires Submissions(Nth(b, steps, i, ttl).after.chain, steps[i].request.key)
             == Submissions(Nth(b, steps, j, ttl).after.chain, steps[i].request.key)
    ensures var (x, y) := (Nth(b, steps, i, ttl).response.reply, Nth(b, steps, j, ttl).response.reply);
            x.payload == y.payload && (steps[i].request.endpoint != Listings ==> x == y)
  {
    NthSettles(b, steps, i, clock, ttl);
    NthSettles(b, steps, j, clock, ttl);
    ChainOnlyGrows(b, steps, i, j, clock, ttl);
    SubmissionsGrow(Nth(b, steps, i, ttl).after.chain, Nth(b, steps, j, ttl).after.chain, steps[i].request.key);
  }

  // So a client that keeps retrying within the time to live of its submission never sees two different answers.
  lemma SameAnswerWithinTimeToLive(b: Backend, steps: seq<Step>, i: nat, j: nat, clock: int, ttl: int)
    requires Coherent(b, clock, ttl) && Timely(steps, clock) && i <= j < |steps|
    requires steps[i].request.key == steps[j].request.key && steps[i].request.endpoint == steps[j].request.endpoint
    requires Nth(b, steps, i, ttl).response.Success() && Nth(b, steps, j, ttl).response.Success()
    requires LatestEvent(Nth(b, steps, i, ttl).after.chain, steps[i].request.key).Some? ==>
               steps[j].at.chain < LatestEvent(Nth(b, steps, i, ttl).after.chain,
                   steps[i].request.key).value.createdAt + ttl
    ensures var (x, y) := (Nth(b, steps, i, ttl).response.reply, Nth(b, steps, j, ttl).response.reply);
            x.payload == y.payload && (steps[i].request.endpoint != Listings ==> x == y)
  {
    var key := steps[i].request.key;
    NthSettles(b, steps, i, clock, ttl);
    NthSettles(b, steps, j, clock, ttl);
    ChainOnlyGrows(b, steps, i, j, clock, ttl);
    var early, late := Nth(b, steps, i, ttl).after.chain, Nth(b, steps, j, ttl).after.chain;
    SubmissionsGrow(early, late, key);
    SameAnswerBetweenSubmissions(b, steps, i, j, clock, ttl);
  }

  // ---------------------------------------------------------------- the rows of a run

  /** A request appends to the chain what its service prepared, or nothing. */
  predicate Appends(b: Backend, r: Request, at: Clock, chain: seq<Event>) {
    || chain == b.chain
    || (Valid(r.endpoint, r.body) && b.Prepare(r, at.service).Ok?
        && chain == b.chain + [Event(r.key, b.Prepare(r, at.service).value, at.chain)])
  }

  lemma ProceedSubmits(b: Backend, r: Request, at: Clock, fault: Fault, ttl: int)
    ensures Appends(b, r, at, b.Proceed(r, at, fault, ttl).after.chain)
  {
  }

  lemma StepSubmits(b: Backend, s: Step, ttl: int)
    ensures Appends(b, s.request, s.at, After(b, s, ttl).after.chain)
  {
    ProceedSubmits(b, s.request, s.at, s.fault, ttl);
    if s.fault.writes > 0 {
      ProceedSubmits(b.Forget(s.request.key), s.request, s.at, Fault(s.fault.txFails, s.fault.writes - 1), ttl);
    }
  }

  lemma {:induction false} EveryRunApplies(b: Backend, steps: seq<Step>, clock: int, ttl: int)
    requires Coherent(b, clock, ttl) && Timely(steps, clock)
    ensures ApplyAll(b.domain, Commits(b, steps, ttl)) == Ok(Run(b, steps, ttl).domain)
    decreases |steps|
  {
    if steps != [] {
      StepSettles(b, steps[0], clock, ttl);
      var first := After(b, steps[0], ttl);
      EveryRunApplies(first.after, steps[1..], steps[0].at.chain, ttl);
      var rest := Commits(first.after, steps[1..], ttl);
      if first.committed.Some? {
        assert ([first.committed.value] + rest)[1..] == rest;
      } else {
        assert Commits(b, steps, ttl) == rest;
      }
    }
  }

  /** No listing key is used with two quantities. */
  ghost predicate Honest(steps: seq<Step>, quantityOf: string -> int) {
    forall s :: s in steps && s.request.endpoint == Listings && Valid(Listings, s.request.body) ==>
      s.request.body.quantity.value == quantityOf(s.request.key)
  }

  ghost predicate AgreedRows(d: Domain, quantityOf: string -> int) {
    Balanced(d) && forall id :: id in d.listings ==> id.Derived? && d.listings[id].total == quantityOf(id.key)
  }

  ghost predicate AgreedEvents(chain: seq<Event>, quantityOf: string -> int) {
    forall e :: e in chain && e.payload.ListingCreated? ==> e.payload.quantity == quantityOf(e.dedupId)
  }

  lemma CommitBalances(d: Domain, p: Payload, quantityOf: string -> int)
    requires AgreedRows(d, quantityOf) && Apply(d, p).Ok?
    requires p.ListingCreated? ==> p.id.Derived? && p.quantity == quantityOf(p.id.key)
    ensures AgreedRows(Apply(d, p).value, quantityOf)
  {
    if p.ListingCreated? {
      ListingKeepsBalance(d, p);
    } else {
      PurchaseKeepsBalance(d, p);
    }
  }

  lemma StepAgrees(b: Backend, s: Step, quantityOf: string -> int, ttl: int)
    requires AgreedEvents(b.chain, quantityOf) && Honest([s], quantityOf)
    ensures AgreedEvents(After(b, s, ttl).after.chain, quantityOf)
  {
    StepSubmits(b, s, ttl);
    assert s in [s];
  }

  lemma StepBalances(b: Backend, s: Step, quantityOf: string -> int, clock: int, ttl: int)
    requires Coherent(b, clock, ttl) && Ticks(s.at, clock)
    requires AgreedEvents(b.chain, quantityOf) && AgreedRows(b.domain, quantityOf) && Honest([s], quantityOf)
    ensures AgreedRows(After(b, s, ttl).after.domain, quantityOf)
  {
    StepSettles(b, s, clock, ttl);
    StepAgrees(b, s, quantityOf, ttl);
    var o := After(b, s, ttl);
    if o.committed.Some? {
      var e := LatestEvent(o.after.chain, s.request.key).value;
      assert Backed(e, o.after.domain);
      CommitBalances(b.domain, e.payload, quantityOf);
    }
  }

  // However requests fail and interleave, every listing has sold exactly what its purchase rows add up to.
  lemma {:induction false} EveryRunBalances(b: Backend, steps: seq<Step>, quantityOf: string -> int, clock: int,
                                            ttl: int)
    requires Coherent(b, clock, ttl) && Timely(steps, clock)
    requires AgreedEvents(b.chain, quantityOf) && AgreedRows(b.domain, quantityOf) && Honest(steps, quantityOf)
    ensures AgreedRows(Run(b, steps, ttl).domain, quantityOf)
    decreases |steps|
  {
    if steps != [] {
      assert steps[0] in steps;
      StepAgrees(b, steps[0], quantityOf, ttl);
      StepBalances(b, steps[0], quantityOf, clock, ttl);
      StepSettles(b, steps[0], clock, ttl);
      EveryRunBalances(After(b, steps[0], ttl).after, steps[1..], quantityOf, steps[0].at.chain, ttl);
    }
  }

  lemma BalancedFromGenesis(steps: seq<Step>, quantityOf: string -> int, clock: int, ttl: int)
    requires Timely(steps, clock) && Honest(steps, quantityOf)
    ensures Balanced(Run(GENESIS, steps, ttl).domain)
  {
    EveryRunBalances(GENESIS, steps, quantityOf, clock, ttl);
  }

  // ---------------------------------------------------------------- the life of a record

  /** Until it expires, a record keeps its fingerprint and times, and a cached response never changes. */
  ghost predicate RecordKept(record: Record, after: Record) {
    && after == record.(reply := after.reply)
    && (record.reply.Some? ==> after.reply == record.reply)
  }

  // An unexpired record changes in one way only: its own request completes it. It disappears only when that request's
  // execution gives up.
  lemma ProceedKeepsOwnRecord(b: Backend, r: Request, at: Clock, fault: Fault, ttl: int)
    requires r.key in b.records
    ensures var o := b.Proceed(r, at, fault, ttl);
            && (r.key in o.after.records ==> RecordKept(b.records[r.key], o.after.records[r.key]))
            && (r.key !in o.after.records ==> b.records[r.key].reply.None? && o.response.Refused?)
  {
  }

  lemma RecordLifecycle(b: Backend, s: Step, key: string, ttl: int)
    requires key in b.records && s.at.handler < b.records[key].expiresAt
    ensures var o := After(b, s, ttl);
            && (key in o.after.records ==> RecordKept(b.records[key], o.after.records[key]))
            && (key !in o.after.records ==> b.records[key].reply.None? && s.request.key == key && o.response.Refused?)
  {
    if s.request.key == key {
      if ValidKey(key) {
        ProceedKeepsOwnRecord(b, s.request, s.at, s.fault, ttl);
      }
    } else {
      StepKeepsRecord(b, s, key, ttl);
    }
  }

  // Until its record expires, a cached answer is the only success its key gives, to the request that earned it.
  lemma {:induction false} CachedAnswerStands(b: Backend, steps: seq<Step>, key: string, clock: int, ttl: int)
    requires key in b.records && b.records[key].reply.Some?
    requires Timely(steps, clock) && Last(steps, clock) < b.records[key].expiresAt
    ensures var after := Run(b, steps, ttl);
            key in after.records && after.records[key] == b.records[key]
    decreases |steps|
  {
    if steps != [] {
      TimesGrow(steps, clock);
      RecordLifecycle(b, steps[0], key, ttl);
      CachedAnswerStands(After(b, steps[0], ttl).after, steps[1..], key, steps[0].at.chain, ttl);
    }
  }

  lemma {:induction false} TimesGrow(steps: seq<Step>, clock: int)
    requires Timely(steps, clock)
    ensures clock <= Last(steps, clock)
    ensures steps != [] ==> steps[0].at.handler <= Last(steps, clock)
    ensures steps != [] ==> Last(steps[1..], steps[0].at.chain) == Last(steps, clock)
    decreases |steps|
  {
    if steps != [] {
      TimesGrow(steps[1..], steps[0].at.chain);
    }
  }

  // A request under a key whose answer is cached is answered with it when it is the same request, and refused
  // otherwise.
  lemma CachedAnswerAnswers(b: Backend, steps: seq<Step>, s: Step, clock: int, ttl: int)
    requires s.request.key in b.records && b.records[s.request.key].reply.Some? && ValidKey(s.request.key)
    requires Timely(steps, clock) && Last(steps, clock) <= s.at.handler < b.records[s.request.key].expiresAt
    ensures var record, o := b.records[s.request.key], After(Run(b, steps, ttl), s, ttl);
            && o.after == Run(b, steps, ttl)
            && o.response == if record.fingerprint == Fingerprint(s.request.endpoint, s.request.body)
                             then Replayed(record.reply.value) else Refused(422)
  {
    CachedAnswerStands(b, steps, s.request.key, clock, ttl);
  }

  // ---------------------------------------------------------------- a retry repairs what a failure lost

  ghost predicate Avoids(steps: seq<Step>, key: string) {
    forall s :: s in steps ==> s.request.key != key
  }

  ghost predicate SameRecord(b: Backend, c: Backend, key: string) {
    (key in b.records <==> key in c.records) && (key in b.records ==> b.records[key] == c.records[key])
  }

  lemma PerformKeepsRecord(b: Backend, r: Request, at: Clock, fault: Fault, key: string, ttl: int)
    requires r.key != key && Valid(r.endpoint, r.body)
    ensures SameRecord(b, b.Perform(r, at, fault, ttl).after, key)
  {
  }

  lemma ProceedKeepsRecord(b: Backend, r: Request, at: Clock, fault: Fault, key: string, ttl: int)
    requires r.key != key
    ensures SameRecord(b, b.Proceed(r, at, fault, ttl).after, key)
  {
    if Valid(r.endpoint, r.body) {
      PerformKeepsRecord(b, r, at, fault, key, ttl);
      if fault.writes > 0 {
        var begun := b.Begin(r.key, Fingerprint(r.endpoint, r.body), at.handler, ttl);
        PerformKeepsRecord(begun, r, at, Fault(fault.txFails, fault.writes - 1), key, ttl);
      }
    }
  }

  lemma StepKeepsRecord(b: Backend, s: Step, key: string, ttl: int)
    requires s.request.key != key
    ensures SameRecord(b, After(b, s, ttl).after, key)
  {
    ProceedKeepsRecord(b, s.request, s.at, s.fault, key, ttl);
    if s.fault.writes > 0 {
      ProceedKeepsRecord(b.Forget(s.request.key), s.request, s.at, Fault(s.fault.txFails, s.fault.writes - 1), key,
          ttl);
    }
  }

  // Requests under other keys leave a key's latest submission alone, and commit other ids.
  lemma StepAvoids(b: Backend, s: Step, key: string, clock: int, ttl: int)
    requires Coherent(b, clock, ttl) && Ticks(s.at, clock) && s.request.key != key
    ensures var o := After(b, s, ttl);
            && LatestEvent(o.after.chain, key) == LatestEvent(b.chain, key)
            && (o.committed.Some? ==> o.committed.value.id.Derived? && o.committed.value.id.key != key)
  {
    var o := After(b, s, ttl);
    StepSubmits(b, s, ttl);
    if o.after.chain != b.chain {
      LatestAfter(b.chain, o.after.chain[|b.chain|], key);
    }
    StepSettles(b, s, clock, ttl);
    if o.committed.Some? {
      assert Backed(LatestEvent(o.after.chain, s.request.key).value, o.after.domain);
    }
  }

  lemma {:induction false} RunAvoids(b: Backend, steps: seq<Step>, key: string, clock: int, ttl: int)
    requires Coherent(b, clock, ttl) && Timely(steps, clock) && Avoids(steps, key)
    ensures SameRecord(b, Run(b, steps, ttl), key)
    ensures LatestEvent(Run(b, steps, ttl).chain, key) == LatestEvent(b.chain, key)
    ensures forall q :: q in Commits(b, steps, ttl) ==> q.id.Derived? && q.id.key != key
    decreases |steps|
  {
    if steps != [] {
      assert steps[0] in steps;
      StepKeepsRecord(b, steps[0], key, ttl);
      StepAvoids(b, steps[0], key, clock, ttl);
      StepSettles(b, steps[0], clock, ttl);
      RunAvoids(After(b, steps[0], ttl).after, steps[1..], key, steps[0].at.chain, ttl);
    }
  }

  /** The submission a request made, seen in the state it left behind. */
  ghost predicate Submitted(b: Backend, r: Request, at: Clock, o: Outcome, p: Payload) {
    && Matches(r.endpoint, p)
    && Apply(b.domain, p).Ok?
    && o.after.chain == b.chain + [Event(r.key, p, at.chain)]
    && (r.key in o.after.records ==> o.after.records[r.key].fingerprint == Fingerprint(r.endpoint, r.body))
    && (r.key in o.after.records && o.after.records[r.key].reply.Some? ==> o.committed == Some(p))
    && (o.committed == Some(p) || o.committed == None)
  }

  lemma PerformRecords(b: Backend, r: Request, at: Clock, fault: Fault, ttl: int)
    requires Valid(r.endpoint, r.body)
    requires r.key in b.records ==>
               b.records[r.key].fingerprint == Fingerprint(r.endpoint, r.body) && b.records[r.key].reply.None?
    ensures var o := b.Perform(r, at, fault, ttl);
            o.after.chain == b.chain || (b.Prepare(r, at.service).Ok?
                                         && Submitted(b, r, at, o, b.Prepare(r, at.service).value))
  {
  }

  lemma ProceedRecords(b: Backend, r: Request, at: Clock, fault: Fault, ttl: int)
    ensures var o := b.Proceed(r, at, fault, ttl);
            o.after.chain == b.chain || (Valid(r.endpoint, r.body) && b.Prepare(r, at.service).Ok?
                                         && Submitted(b, r, at, o, b.Prepare(r, at.service).value))
  {
    var event := LatestEvent(b.chain, r.key);
    var open := r.key in b.records ==>
      b.records[r.key].fingerprint == Fingerprint(r.endpoint, r.body) && b.records[r.key].reply.None?;
    if Valid(r.endpoint, r.body) && open {
      if r.key in b.records {
        PerformRecords(b, r, at, fault, ttl);
      } else if fault.writes > 0 {
        var begun := b.Begin(r.key, Fingerprint(r.endpoint, r.body), at.handler, ttl);
        PerformRecords(begun, r, at, Fault(fault.txFails, fault.writes - 1), ttl);
      }
    }
  }

  lemma SubmissionIsRecorded(b: Backend, s: Step, ttl: int)
    requires After(b, s, ttl).after.chain != b.chain
    ensures |After(b, s, ttl).after.chain| > |b.chain|
    ensures Submitted(b, s.request, s.at, After(b, s, ttl), After(b, s, ttl).after.chain[|b.chain|].payload)
  {
    ProceedRecords(b, s.request, s.at, s.fault, ttl);
    if s.fault.writes > 0 {
      ProceedRecords(b.Forget(s.request.key), s.request, s.at, Fault(s.fault.txFails, s.fault.writes - 1), ttl);
    }
  }

  lemma CleanProceedCommits(b: Backend, r: Request, at: Clock, fault: Fault, writes: nat, p: Payload, ttl: int)
    requires b.Proceed(r, at, fault, ttl).after.chain == b.chain + [Event(r.key, p, at.chain)] && writes >= 4
    ensures Apply(b.domain, p) == Ok(b.Proceed(r, at, Fault(false, writes), ttl).after.domain)
  {
    ProceedSubmits(b, r, at, fault, ttl);
    var sent := b.chain + [Event(r.key, p, at.chain)];
    assert sent[|b.chain|].payload == p && |sent| != |b.chain|;
  }

  // Wherever a request fails once it has submitted, its clean execution submits the same payload and commits it.
  lemma CleanExecutionCommits(b: Backend, s: Step, p: Payload, ttl: int)
    requires After(b, s, ttl).after.chain == b.chain + [Event(s.request.key, p, s.at.chain)]
    ensures Apply(b.domain, p) == Ok(After(b, s.(fault := NO_FAULT), ttl).after.domain)
  {
    var (r, key) := (s.request, s.request.key);
    assert |After(b, s, ttl).after.chain| != |b.chain|;
    if key in b.records && b.records[key].expiresAt <= s.at.handler {
      CleanProceedCommits(b.Forget(key), r, s.at, Fault(s.fault.txFails, s.fault.writes - 1), 4, p, ttl);
    } else {
      CleanProceedCommits(b, r, s.at, s.fault, 5, p, ttl);
    }
  }

  // The retry answers with the submitted payload and leaves the rows it stands for, whether or not they were there.
  lemma RetrySettles(b: Backend, r: Request, at: Clock, e: Event, ttl: int)
    requires AwaitsRetry(b, r, e) && at.handler - e.createdAt < ttl
    ensures var o := b.Handle(r, at, NO_FAULT, ttl);
            && o.response.Success() && o.response.reply.payload == e.payload
            && o.after.chain == b.chain
            && Apply(b.domain, e.payload) == Ok(o.after.domain)
  {
  }

  // A key retried on another endpoint before its record exists: retirements answer as if they had settled, yet write
  // nothing; the other two fail. So an answer stands for written rows exactly when the endpoint is the submission's
  // own.
  lemma RetryOnAnotherEndpoint(b: Backend, r: Request, at: Clock, e: Event, ttl: int)
    requires LatestEvent(b.chain, r.key) == Some(e) && ValidKey(r.key) && r.key !in b.records
    requires at.handler - e.createdAt < ttl && Apply(b.domain, e.payload).Ok?
    ensures var o := b.Handle(r, at, NO_FAULT, ttl);
            && (o.response.Success() <==> Matches(r.endpoint, e.payload) || r.endpoint == Retirements)
            && (o.response.Success() ==> (o.committed == Some(e.payload) <==> Matches(r.endpoint, e.payload)))
            && (!Matches(r.endpoint, e.payload) ==> o.after.domain == b.domain && o.committed == None)
  {
    var o := b.Handle(r, at, NO_FAULT, ttl);
    assert o == b.Reconcile(r, e, at.handler, NO_FAULT, ttl);
  }

  // ---------------------------------------------------------------- a success stands for stored rows

  /** Every payload whose response its own endpoint has cached has nothing left to write. */
  ghost predicate Stored(b: Backend) {
    forall key :: key in b.records && b.records[key].reply.Some? ==> StoredReply(b, b.records[key])
  }

  predicate StoredReply(b: Backend, record: Record)
    requires record.reply.Some?
  {
    var p := record.reply.value.payload;
    Matches(record.fingerprint.endpoint, p) ==> Apply(b.domain, p) == Ok(b.domain)
  }

  /** The request's record holds the answer it gave, and a response it newly cached was committed by it. */
  ghost predicate Caches(b: Backend, r: Request, o: Outcome) {
    && (o.response.Success() ==>
          && r.key in o.after.records && o.after.records[r.key].reply == Some(o.response.reply)
          && o.after.records[r.key].fingerprint.endpoint == r.endpoint)
    && (r.key in o.after.records && o.after.records[r.key].reply.Some? ==>
          var record := o.after.records[r.key];
          || (r.key in b.records && b.records[r.key] == record && o.after.domain == b.domain)
          || (o.committed == Some(record.reply.value.payload)
              && Apply(b.domain, record.reply.value.payload) == Ok(o.after.domain))
          || !Matches(record.fingerprint.endpoint, record.reply.value.payload))
  }

  lemma ReconcileCaches(b: Backend, r: Request, e: Event, now: int, fault: Fault, ttl: int)
    requires r.key in b.records ==>
             b.records[r.key].fingerprint == Fingerprint(r.endpoint, r.body) && b.records[r.key].reply.None?
    ensures Caches(b, r, b.Reconcile(r, e, now, fault, ttl))
  {
  }

  lemma PerformCaches(b: Backend, r: Request, at: Clock, fault: Fault, ttl: int)
    requires Valid(r.endpoint, r.body)
    requires r.key in b.records ==>
             b.records[r.key].fingerprint == Fingerprint(r.endpoint, r.body) && b.records[r.key].reply.None?
    ensures Caches(b, r, b.Perform(r, at, fault, ttl))
  {
  }

  lemma ProceedCaches(b: Backend, r: Request, at: Clock, fault: Fault, ttl: int)
    ensures Caches(b, r, b.Proceed(r, at, fault, ttl))
  {
    var event := LatestEvent(b.chain, r.key);
    var open := r.key in b.records ==>
      b.records[r.key].fingerprint == Fingerprint(r.endpoint, r.body) && b.records[r.key].reply.None?;
    if open {
      if event.Some? {
        ReconcileCaches(b, r, event.value, at.handler, fault, ttl);
      }
      if Valid(r.endpoint, r.body) {
        if r.key in b.records {
          PerformCaches(b, r, at, fault, ttl);
        } else if fault.writes > 0 {
          var begun := b.Begin(r.key, Fingerprint(r.endpoint, r.body), at.handler, ttl);
          PerformCaches(begun, r, at, Fault(fault.txFails, fault.writes - 1), ttl);
        }
      }
    }
  }

  lemma StepCaches(b: Backend, s: Step, ttl: int)
    ensures Caches(b, s.request, After(b, s, ttl))
  {
    ProceedCaches(b, s.request, s.at, s.fault, ttl);
    if s.fault.writes > 0 {
      ProceedCaches(b.Forget(s.request.key), s.request, s.at, Fault(s.fault.txFails, s.fault.writes - 1), ttl);
    }
  }

  lemma StepStores(b: Backend, s: Step, clock: int, ttl: int)
    requires Coherent(b, clock, ttl) && Ticks(s.at, clock) && Stored(b)
    ensures Stored(After(b, s, ttl).after)
  {
    var o := After(b, s, ttl);
    StepCaches(b, s, ttl);
    StepSettles(b, s, clock, ttl);
    forall key | key in o.after.records && o.after.records[key].reply.Some?
      ensures StoredReply(o.after, o.after.records[key])
    {
      var p := o.after.records[key].reply.value.payload;
      if key != s.request.key {
        StepKeepsRecord(b, s, key, ttl);
        StepAvoids(b, s, key, clock, ttl);
        assert Cached(b, key) && Backed(LatestEvent(b.chain, key).value, b.domain);
        assert StoredReply(b, b.records[key]);
        if o.committed.Some? {
          Commute(b.domain, p, o.committed.value);
        }
      } else if o.committed == Some(p) {
        ApplyTwice(b.domain, p);
      }
    }
  }

  lemma {:induction false} EveryRunStores(b: Backend, steps: seq<Step>, clock: int, ttl: int)
    requires Coherent(b, clock, ttl) && Timely(steps, clock) && Stored(b)
    ensures Stored(Run(b, steps, ttl))
    decreases |steps|
  {
    if steps != [] {
      StepSettles(b, steps[0], clock, ttl);
      StepStores(b, steps[0], clock, ttl);
      EveryRunStores(After(b, steps[0], ttl).after, steps[1..], steps[0].at.chain, ttl);
    }
  }

  // Whatever failed before, a success from the submission's own endpoint leaves nothing of its payload to write.
  lemma SuccessMeansStored(steps: seq<Step>, i: nat, clock: int, ttl: int)
    requires Timely(steps, clock) && i < |steps|
    requires Nth(GENESIS, steps, i, ttl).response.Success()
    requires Matches(steps[i].request.endpoint, Nth(GENESIS, steps, i, ttl).response.reply.payload)
    ensures var o := Nth(GENESIS, steps, i, ttl);
            Apply(o.after.domain, o.response.reply.payload) == Ok(o.after.domain)
  {
    var b := Run(GENESIS, steps[..i], ttl);
    TimelySplits(steps, i, clock);
    EveryRunIsCoherent(GENESIS, steps[..i], clock, ttl);
    EveryRunStores(GENESIS, steps[..i], clock, ttl);
    StepStores(b, steps[i], Last(steps[..i], clock), ttl);
    StepCaches(b, steps[i], ttl);
    var o := After(b, steps[i], ttl);
    assert StoredReply(o.after, o.after.records[steps[i].request.key]);
  }

  // A purchase key used again after its time to live submits a second purchase on chain. Its row and its decrement are
  // written exactly when the first one left no row; otherwise the table keeps the first purchase.
  lemma ReusedPurchaseKey(b: Backend, r: Request, at: Clock, ttl: int)
    requires r.endpoint == Purchases && b.Handle(r, at, NO_FAULT, ttl).response.Executed?
    ensures var o := b.Handle(r, at, NO_FAULT, ttl);
            var p, id := o.response.reply.payload, Derived("pur", r.key);
            && o.after.chain == b.chain + [Event(r.key, p, at.chain)]
            && p.PurchaseSettled? && id in o.after.domain.purchases && p.listingId in b.domain.listings
            && (o.after.domain.purchases[id] == PurchaseRow(p)
                <==> id in b.domain.purchases ==> b.domain.purchases[id] == PurchaseRow(p))
            && o.after.domain.listings[p.listingId].remaining
               == b.domain.listings[p.listingId].remaining - (if id in b.domain.purchases then 0 else p.quantity)
  {
  }

  // Whether or not a payload's rows were written before them, requests under other keys commit what they would have
  // committed after it.
  lemma OthersInterleave(b: Backend, others: seq<Step>, d: Domain, p: Payload, key: string, clock: int, ttl: int)
    requires Coherent(b, clock, ttl) && Timely(others, clock) && Avoids(others, key)
    requires p.id == Derived(PrefixOf(p), key) && Apply(d, p).Ok?
    requires b.domain == d || b.domain == Apply(d, p).value
    ensures Apply(Run(b, others, ttl).domain, p).Ok?
    ensures Apply(Run(b, others, ttl).domain, p) == ApplyAll(Apply(d, p).value, Commits(b, others, ttl))
    ensures b.domain == Apply(d, p).value ==> Apply(Run(b, others, ttl).domain, p) == Ok(Run(b, others, ttl).domain)
  {
    EveryRunApplies(b, others, clock, ttl);
    RunAvoids(b, others, key, clock, ttl);
    if b.domain == d {
      CommuteAll(d, p, Commits(b, others, ttl));
    }
    if b.domain == Apply(d, p).value {
      ReplayChangesNothing(d, p, Commits(b, others, ttl));
    }
  }

  /** What a retry needs: the submission is the key's latest, and a cached response was committed. */
  ghost predicate AwaitsRetry(b: Backend, r: Request, e: Event) {
    && LatestEvent(b.chain, r.key) == Some(e) && Matches(r.endpoint, e.payload) && ValidKey(r.key)
    && Apply(b.domain, e.payload).Ok?
    && (r.key in b.records ==>
          && b.records[r.key].fingerprint == Fingerprint(r.endpoint, r.body)
          && (b.records[r.key].reply.Some? ==>
                b.records[r.key].reply.value.payload == e.payload && Apply(b.domain, e.payload).value == b.domain))
  }

  lemma SubmissionIsLatest(b: Backend, s: Step, clock: int, ttl: int)
    requires Coherent(b, clock, ttl) && Ticks(s.at, clock) && After(b, s, ttl).after.chain != b.chain
    ensures var failed := After(b, s, ttl).after;
            && |failed.chain| > |b.chain|
            && LatestEvent(failed.chain, s.request.key) == Some(failed.chain[|b.chain|])
            && ValidKey(s.request.key)
  {
    SubmissionIsRecorded(b, s, ttl);
    LatestAfter(b.chain, After(b, s, ttl).after.chain[|b.chain|], s.request.key);
  }

  // What a failed request and others after it leave behind.
  lemma FailureAwaitsRetry(b: Backend, s: Step, others: seq<Step>, clock: int, ttl: int)
    requires Coherent(b, clock, ttl) && Ticks(s.at, clock) && Timely(others, s.at.chain)
    requires After(b, s, ttl).after.chain != b.chain && Avoids(others, s.request.key)
    ensures var failed := After(b, s, ttl).after;
            var mid := Run(failed, others, ttl);
            && |failed.chain| > |b.chain|
            && var e := failed.chain[|b.chain|];
               && e.createdAt == s.at.chain && AwaitsRetry(mid, s.request, e)
               && Apply(b.domain, e.payload).Ok?
               && Apply(mid.domain, e.payload)
                   == ApplyAll(Apply(b.domain, e.payload).value, Commits(failed, others, ttl))
  {
    var first := After(b, s, ttl);
    var failed, key := first.after, s.request.key;
    SubmissionIsRecorded(b, s, ttl);
    SubmissionIsLatest(b, s, clock, ttl);
    StepSettles(b, s, clock, ttl);
    var e := failed.chain[|b.chain|];
    assert Backed(e, failed.domain);
    var mid := Run(failed, others, ttl);
    EveryRunIsCoherent(failed, others, s.at.chain, ttl);
    RunAvoids(failed, others, key, s.at.chain, ttl);
    OthersInterleave(failed, others, b.domain, e.payload, key, s.at.chain, ttl);
    if key in mid.records {
      assert Cached(mid, key);
    }
  }

  // A request that failed anywhere after its submission, any requests under other keys and a retry in time leave the
  // rows of a clean execution followed by what those requests committed, and submit nothing more.
  lemma RetryRepairs(b: Backend, s: Step, others: seq<Step>, retry: Step, clock: int, ttl: int)
    requires Coherent(b, clock, ttl) && Timely([s] + others + [retry], clock)
    requires After(b, s, ttl).after.chain != b.chain
    requires Avoids(others, s.request.key)
    requires retry.request == s.request && retry.fault == NO_FAULT && retry.at.handler - s.at.chain < ttl
    ensures var failed, clean := After(b, s, ttl).after, After(b, s.(fault := NO_FAULT), ttl).after;
            var mid := Run(failed, others, ttl);
            var o := After(mid, retry, ttl);
            && |failed.chain| > |b.chain|
            && o.response.Success() && o.response.reply.payload == failed.chain[|b.chain|].payload
            && o.after.chain == mid.chain
            && ApplyAll(clean.domain, Commits(failed, others, ttl)) == Ok(o.after.domain)
  {
    var steps := [s] + others + [retry];
    assert steps[1..] == others + [retry];
    TimelySplits(others + [retry], |others|, s.at.chain);
    assert (others + [retry])[..|others|] == others;
    FailureAwaitsRetry(b, s, others, clock, ttl);
    SubmissionIsRecorded(b, s, ttl);
    var e := After(b, s, ttl).after.chain[|b.chain|];
    CleanExecutionCommits(b, s, e.payload, ttl);
    RetrySettles(Run(After(b, s, ttl).after, others, ttl), s.request, retry.at, e, ttl);
  }
}
