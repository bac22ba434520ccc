/** Whole histories of the oracle contract: no price is revealed that was not committed, aged and unchallenged. */
module OracleHistory {
  import opened Base
  import opened Bytes
  import opened Attestation
  import opened CarbonOracle

  datatype Call =
    | Initialize(signers: set<Address>, admin: Address, key: Key, window: U32)
    | SetWindow(signers: set<Address>, admin: Address, window: U32)
    | RotateKey(signers: set<Address>, admin: Address, key: Key)
    | SetCircuit(signers: set<Address>, admin: Address, circuit: CircuitBreaker)
    | Heartbeat(signers: set<Address>, oracle: Address, at: int)
    | Commit(signers: set<Address>, oracle: Address, feed: FeedId, hash: Digest)
    | Challenge(signers: set<Address>, challenger: Address, feed: FeedId)
    | RevealValues(signers: set<Address>, oracle: Address, feed: FeedId, values: Reveal, salt: Bytes32,
                   signature: Signature, cid: Option<seq<Byte>>)
    | Submit(signers: set<Address>, oracle: Address, feed: FeedId, values: Reveal, signature: Signature,
             cid: Option<seq<Byte>>)

  function Try(s: Oracle, verify: Verifier, now: U32, call: Call): Result<(Oracle, ()), OracleError> {
    match call
    case Initialize(signers, admin, key, window) => s.Initialize(signers, admin, key, window)
    case SetWindow(signers, admin, window) => s.SetWindow(signers, admin, window)
    case RotateKey(signers, admin, key) => s.RotateKey(signers, admin, key)
    case SetCircuit(signers, admin, circuit) => s.SetCircuit(signers, admin, circuit)
    case Heartbeat(signers, oracle, at) => s.Heartbeat(signers, oracle, at)
    case Commit(signers, oracle, feed, hash) => s.CommitPrice(signers, now, oracle, feed, hash)
    case Challenge(signers, challenger, feed) => s.ChallengePrice(signers, now, challenger, feed)
    case RevealValues(signers, oracle, feed, values, salt, signature, cid) =>
      s.RevealPrice(verify, signers, now, oracle, feed, values, salt, signature, cid)
    case Submit(signers, oracle, feed, values, signature, cid) =>
      s.SubmitPrice(verify, signers, now, oracle, feed, values, signature, cid)
  }

  /** An accepted call, the ledger it ran in, and the challenge window and oracle key in force before it. */
  datatype Accepted = Accepted(at: U32, window: Option<U32>, key: Option<Key>, call: Call)

  datatype System = System(state: Oracle, log: seq<Accepted>)

  function WindowOf(s: Oracle): Option<U32> {
    if s.config.Some? then Some(s.config.value.window) else None
  }

  function KeyOf(s: Oracle): Option<Key> {
    if s.config.Some? then Some(s.config.value.oracleKey) else None
  }

  function Step(y: System, verify: Verifier, now: U32, call: Call): System {
    var r := Try(y.state, verify, now, call);
    if r.Ok? then System(r.value.0, y.log + [Accepted(now, WindowOf(y.state), KeyOf(y.state), call)]) else y
  }

  ghost function Run(y: System, verify: Verifier, calls: seq<(U32, Call)>): System
    decreases |calls|
  {
    if calls == [] then y else Run(Step(y, verify, calls[0].0, calls[0].1), verify, calls[1..])
  }

  // ---------------------------------------------------------------- what a history must say

  /** Calls that change a feed's commitment. */
  predicate Touches(call: Call, feed: FeedId) {
    (call.Commit? && call.feed == feed) || (call.Challenge? && call.feed == feed)
    || (call.RevealValues? && call.feed == feed)
  }

  predicate Writes(call: Call, feed: FeedId) {
    (call.RevealValues? && call.feed == feed) || (call.Submit? && call.feed == feed)
  }

  /** Entry `i` committed `hash` for the feed, and nothing touched the feed between it and position `k`. */
  predicate StillCommitted(log: seq<Accepted>, i: nat, k: nat, feed: FeedId, hash: Digest)
    requires i < k <= |log|
  {
    && log[i].call.Commit? && log[i].call.feed == feed && log[i].call.hash == hash
    && forall j :: i < j < k ==> !Touches(log[j].call, feed)
  }

  /** A reveal's values hash to the feed's open commitment, made at least the window's length earlier. */
  ghost predicate Justified(log: seq<Accepted>, k: nat)
    requires k < |log|
  {
    log[k].call.RevealValues? ==>
      && log[k].window.Some?
      && exists i: nat :: i < k && log[i].window.Some?
           && StillCommitted(log, i, k, log[k].call.feed,
               HashOf(log[k].call.values, log[k].call.feed, log[k].call.salt))
           && log[i].at + log[k].window.value <= log[k].at
  }

  /** An open commitment in storage is the last word on its feed. */
  ghost predicate Open(log: seq<Accepted>, feed: FeedId, c: Commitment) {
    exists i: nat :: i < |log| && log[i].window.Some? && log[i].at == c.recordedAt
                     && StillCommitted(log, i, |log|, feed, c.hash)
  }

  /** A stored price is what the feed's last accepted write carried. */
  ghost predicate Written(log: seq<Accepted>, feed: FeedId, entry: PriceEntry) {
    exists k: nat :: k < |log| && Writes(log[k].call, feed) && log[k].call.values == entry.values
                     && CidBytes(log[k].call.cid) == Ok(entry.cid) && log[k].at == entry.recordedAt
                     && forall j :: k < j < |log| ==> !Writes(log[j].call, feed)
  }

  ghost predicate Recorded(y: System) {
    && (forall f :: f in y.state.commitments && y.state.commitments[f].state == ChallengeWindow ==>
          Open(y.log, f, y.state.commitments[f]))
    && (forall f :: f in y.state.prices ==> Written(y.log, f, y.state.prices[f]))
    && forall k: nat :: k < |y.log| ==> Justified(y.log, k)
  }

  lemma OpenExtends(log: seq<Accepted>, a: Accepted, feed: FeedId, c: Commitment)
    requires Open(log, feed, c) && !Touches(a.call, feed)
    ensures Open(log + [a], feed, c)
  {
    var i: nat :| i < |log| && log[i].window.Some? && log[i].at == c.recordedAt
                  && StillCommitted(log, i, |log|, feed, c.hash);
    assert (log + [a])[i] == log[i];
    assert StillCommitted(log + [a], i, |log| + 1, feed, c.hash);
  }

  lemma WrittenExtends(log: seq<Accepted>, a: Accepted, feed: FeedId, entry: PriceEntry)
    requires Written(log, feed, entry) && !Writes(a.call, feed)
    ensures Written(log + [a], feed, entry)
  {
    var k: nat :| k < |log| && Writes(log[k].call, feed) && log[k].call.values == entry.values
                  && CidBytes(log[k].call.cid) == Ok(entry.cid) && log[k].at == entry.recordedAt
                  && forall j :: k < j < |log| ==> !Writes(log[j].call, feed);
    assert (log + [a])[k] == log[k];
  }

  lemma JustifiedExtends(log: seq<Accepted>, a: Accepted, k: nat)
    requires k < |log| && Justified(log, k)
    ensures Justified(log + [a], k)
  {
    var log' := log + [a];
    if log[k].call.RevealValues? {
      var feed, hash := log[k].call.feed, HashOf(log[k].call.values, log[k].call.feed, log[k].call.salt);
      var i: nat :| i < k && log[i].window.Some? && StillCommitted(log, i, k, feed, hash)
                    && log[i].at + log[k].window.value <= log[k].at;
      assert log'[i] == log[i] && log'[k] == log[k];
      assert StillCommitted(log', i, k, feed, hash);
    }
  }

  lemma RevealIsJustified(y: System, verify: Verifier, now: U32, call: Call)
    requires Recorded(y) && call.RevealValues? && Try(y.state, verify, now, call).Ok?
    ensures Justified(Step(y, verify, now, call).log, |y.log|)
  {
    var log', feed, c := Step(y, verify, now, call).log, call.feed, y.state.commitments[call.feed];
    assert Open(y.log, feed, c);
    var i: nat :| i < |y.log| && y.log[i].window.Some? && y.log[i].at == c.recordedAt
                  && StillCommitted(y.log, i, |y.log|, feed, c.hash);
    assert log'[i] == y.log[i];
    assert StillCommitted(log', i, |y.log|, feed, c.hash);
  }

  lemma OpenStep(y: System, verify: Verifier, now: U32, call: Call, f: FeedId)
    requires Recorded(y) && Try(y.state, verify, now, call).Ok?
    requires var z := Step(y, verify, now, call).state;
             f in z.commitments && z.commitments[f].state == ChallengeWindow
    ensures var z := Step(y, verify, now, call);
            Open(z.log, f, z.state.commitments[f])
  {
    var z := Step(y, verify, now, call);
    if Touches(call, f) {
      assert StillCommitted(z.log, |y.log|, |z.log|, f, z.state.commitments[f].hash);
    } else {
      OpenExtends(y.log, Accepted(now, WindowOf(y.state), KeyOf(y.state), call), f, y.state.commitments[f]);
    }
  }

  lemma WrittenStep(y: System, verify: Verifier, now: U32, call: Call, f: FeedId)
    requires Recorded(y) && Try(y.state, verify, now, call).Ok? && f in Step(y, verify, now, call).state.prices
    ensures var z := Step(y, verify, now, call);
            Written(z.log, f, z.state.prices[f])
  {
    var z := Step(y, verify, now, call);
    if Writes(call, f) {
      assert z.log[|y.log|] == Accepted(now, WindowOf(y.state), KeyOf(y.state), call);
    } else {
      WrittenExtends(y.log, Accepted(now, WindowOf(y.state), KeyOf(y.state), call), f, y.state.prices[f]);
    }
  }

  lemma RecordedStep(y: System, verify: Verifier, now: U32, call: Call)
    requires Recorded(y)
    ensures Recorded(Step(y, verify, now, call))
  {
    var z := Step(y, verify, now, call);
    if z != y {
      forall f | f in z.state.commitments && z.state.commitments[f].state == ChallengeWindow
        ensures Open(z.log, f, z.state.commitments[f])
      {
        OpenStep(y, verify, now, call, f);
      }
      forall f | f in z.state.prices ensures Written(z.log, f, z.state.prices[f]) {
        WrittenStep(y, verify, now, call, f);
      }
      forall k: nat | k < |z.log| ensures Justified(z.log, k) {
        if k < |y.log| {
          JustifiedExtends(y.log, Accepted(now, WindowOf(y.state), KeyOf(y.state), call), k);
        } else if call.RevealValues? {
          RevealIsJustified(y, verify, now, call);
        }
      }
    }
  }

  lemma {:induction false} EveryRunIsRecorded(y: System, verify: Verifier, calls: seq<(U32, Call)>)
    requires Recorded(y)
    ensures Recorded(Run(y, verify, calls))
    decreases |calls|
  {
    if calls != [] {
      RecordedStep(y, verify, calls[0].0, calls[0].1);
      EveryRunIsRecorded(Step(y, verify, calls[0].0, calls[0].1), verify, calls[1..]);
    }
  }

  // ---------------------------------------------------------------- a fixed challenge window

  ghost predicate FixedWindow(y: System, window: U32) {
    && (y.state.config.Some? ==> y.state.config.value.window == window)
    && forall k :: 0 <= k < |y.log| && y.log[k].window.Some? ==> y.log[k].window.value == window
  }

  ghost predicate KeepsWindow(calls: seq<(U32, Call)>, window: U32) {
    forall c :: c in calls ==> !c.1.SetWindow? && (c.1.Initialize? ==> c.1.window == window)
  }

  lemma {:induction false} WindowStaysFixed(y: System, verify: Verifier, calls: seq<(U32, Call)>, window: U32)
    requires FixedWindow(y, window) && KeepsWindow(calls, window)
    ensures FixedWindow(Run(y, verify, calls), window)
    decreases |calls|
  {
    if calls != [] {
      assert calls[0] in calls;
      WindowStaysFixed(Step(y, verify, calls[0].0, calls[0].1), verify, calls[1..], window);
    }
  }

  // From empty storage: every accepted reveal opened a commitment to exactly its values, at least the
  // window's length old and with no accepted commit, challenge or reveal of that feed in between.
  lemma RevealsAreCommitted(verify: Verifier, calls: seq<(U32, Call)>, window: U32, k: nat)
    requires KeepsWindow(calls, window)
    requires k < |Run(System(EMPTY, []), verify, calls).log|
    requires Run(System(EMPTY, []), verify, calls).log[k].call.RevealValues?
    ensures var log := Run(System(EMPTY, []), verify, calls).log;
            var call := log[k].call;
            exists i: nat :: i < k
              && StillCommitted(log, i, k, call.feed, HashOf(call.values, call.feed, call.salt))
              && log[i].at + window <= log[k].at
  {
    EveryRunIsRecorded(System(EMPTY, []), verify, calls);
    WindowStaysFixed(System(EMPTY, []), verify, calls, window);
    var log := Run(System(EMPTY, []), verify, calls).log;
    assert Justified(log, k);
  }

  // A commitment reveals to one set of values only.
  lemma CommitmentRevealsOnce(values: Reveal, values': Reveal, feed: FeedId, salt: Bytes32, salt': Bytes32)
    requires HashOf(values, feed, salt) == HashOf(values', feed, salt')
    ensures values == values' && salt == salt'
  {
    CommitmentBinds(values, feed, salt, values', feed, salt');
  }

  // At every ledger an open commitment can pass exactly one of the two timing guards, unless the checked deadline
  // overflows, when it can pass neither.
  lemma ExactlyOneGuard(s: Oracle, verify: Verifier, now: U32, feed: FeedId, signers: set<Address>, who: Address,
                        values: Reveal, salt: Bytes32, signature: Signature)
    requires s.config.Some? && feed in s.commitments && s.commitments[feed].state == ChallengeWindow
    requires who in signers && HashOf(values, feed, salt) == s.commitments[feed].hash
    requires verify(s.config.value.oracleKey, Attested(values, feed), signature)
    ensures var challenged := s.ChallengePrice(signers, now, who, feed);
            var revealed := s.RevealPrice(verify, signers, now, who, feed, values, salt, signature, None);
            if s.commitments[feed].recordedAt + s.config.value.window > 0xFFFF_FFFF
            then challenged == revealed == Err(HostTrap)
            else challenged.Ok? != revealed.Ok?
                 && (revealed.Ok? <==> now >= s.commitments[feed].recordedAt + s.config.value.window)
  {
  }

  // ---------------------------------------------------------------- when a commitment's own window is waited out

  /** A correct opening of an open commitment, at any ledger. */
  ghost predicate Opens(s: Oracle, verify: Verifier, signers: set<Address>, who: Address, feed: FeedId, values: Reveal,
                        salt: Bytes32, signature: Signature)
  {
    && s.config.Some? && feed in s.commitments && s.commitments[feed].state == ChallengeWindow
    && who in signers && HashOf(values, feed, salt) == s.commitments[feed].hash
    && verify(s.config.value.oracleKey, Attested(values, feed), signature)
    && s.commitments[feed].recordedAt + s.config.value.window <= 0xFFFF_FFFF
  }

  /** Whenever the opening is accepted, it is at ledger `from` or later. */
  ghost predicate RevealedFrom(s: Oracle, verify: Verifier, signers: set<Address>, who: Address, feed: FeedId,
                               values: Reveal, salt: Bytes32, signature: Signature, from: int)
  {
    forall now: U32 ::
      s.RevealPrice(verify, signers, now, who, feed, values, salt, signature, None).Ok? ==> from <= now
  }

  // Every reveal of an open commitment, whenever it comes, is at least `delay` ledgers old exactly when the window in
  // force is at least that long.
  lemma DelayHoldsExactly(s: Oracle, verify: Verifier, signers: set<Address>, who: Address, feed: FeedId,
                          values: Reveal, salt: Bytes32, signature: Signature, delay: nat)
    requires Opens(s, verify, signers, who, feed, values, salt, signature)
    ensures RevealedFrom(s, verify, signers, who, feed, values, salt, signature, s.commitments[feed].recordedAt + delay)
            <==> delay <= s.config.value.window
  {
    var first: U32 := s.commitments[feed].recordedAt + s.config.value.window;
    assert s.RevealPrice(verify, signers, first, who, feed, values, salt, signature, None).Ok?;
  }

  /** Entry `i` is the open commitment, and any opening waits out the window it was made under. */
  ghost predicate WaitsOwnWindow(y: System, i: nat, verify: Verifier, signers: set<Address>, who: Address, feed: FeedId,
                                 values: Reveal, salt: Bytes32, signature: Signature)
  {
    && i < |y.log| && y.log[i].window.Some?
    && RevealedFrom(y.state, verify, signers, who, feed, values, salt, signature, y.log[i].at + y.log[i].window.value)
  }

  ghost predicate OpenedBy(y: System, i: nat, feed: FeedId, hash: Digest) {
    i < |y.log| && y.log[i].window.Some? && StillCommitted(y.log, i, |y.log|, feed, hash)
  }

  lemma OwnWindowWaited(y: System, verify: Verifier, signers: set<Address>, who: Address, feed: FeedId, values: Reveal,
                        salt: Bytes32, signature: Signature) returns (i: nat)
    requires Recorded(y) && Opens(y.state, verify, signers, who, feed, values, salt, signature)
    ensures OpenedBy(y, i, feed, HashOf(values, feed, salt))
    ensures WaitsOwnWindow(y, i, verify, signers, who, feed, values, salt, signature)
            <==> y.log[i].window.value <= y.state.config.value.window
  {
    var c := y.state.commitments[feed];
    assert Open(y.log, feed, c);
    i :| i < |y.log| && y.log[i].window.Some? && y.log[i].at == c.recordedAt
         && StillCommitted(y.log, i, |y.log|, feed, c.hash);
    DelayHoldsExactly(y.state, verify, signers, who, feed, values, salt, signature, y.log[i].window.value);
  }

  // Over runs: an open commitment will be revealed no sooner than the window it was made under, whatever the ledger,
  // exactly when the window has not become shorter since.
  lemma OwnWindowWaitedExactly(y: System, verify: Verifier, calls: seq<(U32, Call)>, signers: set<Address>,
                               who: Address, feed: FeedId, values: Reveal, salt: Bytes32, signature: Signature)
    requires y == Run(System(EMPTY, []), verify, calls)
    requires Opens(y.state, verify, signers, who, feed, values, salt, signature)
    ensures exists i: nat :: OpenedBy(y, i, feed, HashOf(values, feed, salt))
              && (WaitsOwnWindow(y, i, verify, signers, who, feed, values, salt, signature)
                  <==> y.log[i].window.value <= y.state.config.value.window)
  {
    EveryRunIsRecorded(System(EMPTY, []), verify, calls);
    var i := OwnWindowWaited(y, verify, signers, who, feed, values, salt, signature);
  }

  // Over any run, whatever happens to the window: an accepted reveal has waited the window in force, and so its own
  // window unless that one was longer.
  lemma EveryRevealWaited(verify: Verifier, calls: seq<(U32, Call)>, k: nat)
    requires k < |Run(System(EMPTY, []), verify, calls).log|
    requires Run(System(EMPTY, []), verify, calls).log[k].call.RevealValues?
    ensures var log := Run(System(EMPTY, []), verify, calls).log;
            var call := log[k].call;
            log[k].window.Some? &&
            exists i: nat :: i < k && log[i].window.Some?
              && StillCommitted(log, i, k, call.feed, HashOf(call.values, call.feed, call.salt))
              && log[i].at + log[k].window.value <= log[k].at
              && (log[i].window.value <= log[k].window.value ==> log[i].at + log[i].window.value <= log[k].at)
  {
    EveryRunIsRecorded(System(EMPTY, []), verify, calls);
    var log := Run(System(EMPTY, []), verify, calls).log;
    assert Justified(log, k);
    var feed, hash := log[k].call.feed, HashOf(log[k].call.values, log[k].call.feed, log[k].call.salt);
    var i: nat :| i < k && log[i].window.Some? && StillCommitted(log, i, k, feed, hash)
                  && log[i].at + log[k].window.value <= log[k].at;
  }

  // ---------------------------------------------------------------- the life of a commitment

  // A commitment changes only by an authorised commit over none that is open, a challenge before the deadline or a
  // correct reveal from the deadline on; the last two settle it and alter nothing else of it.
  lemma CommitmentLifecycle(s: Oracle, verify: Verifier, now: U32, call: Call, feed: FeedId)
    requires Try(s, verify, now, call).Ok? && feed in Try(s, verify, now, call).value.0.commitments
    ensures var t := Try(s, verify, now, call).value.0;
            var d := t.commitments[feed];
            || (feed in s.commitments && d == s.commitments[feed])
            || (call.Commit? && call.feed == feed && call.oracle in call.signers
                && d == Commitment(call.hash, now, ChallengeWindow)
                && (feed in s.commitments ==> s.commitments[feed].state in {Revealed, Disputed}))
            || (feed in s.commitments && s.commitments[feed].state == ChallengeWindow && s.config.Some?
                && var c, deadline := s.commitments[feed], s.commitments[feed].recordedAt + s.config.value.window;
                   || (call.Challenge? && call.feed == feed && call.challenger in call.signers && now < deadline
                       && d == c.(state := Disputed))
                   || (call.RevealValues? && call.feed == feed && call.oracle in call.signers && deadline <= now
                       && HashOf(call.values, feed, call.salt) == c.hash && d == c.(state := Revealed)))
  {
  }

  ghost predicate NoCommit(calls: seq<(U32, Call)>, feed: FeedId) {
    forall c :: c in calls && c.1.Commit? ==> c.1.feed != feed
  }

  // A settled commitment stays as it is until the feed is committed again: nothing disputed is ever revealed.
  lemma {:induction false} SettledStays(y: System, verify: Verifier, calls: seq<(U32, Call)>, feed: FeedId)
    requires feed in y.state.commitments && NoCommit(calls, feed)
    requires y.state.commitments[feed].state == Revealed || y.state.commitments[feed].state == Disputed
    ensures var z := Run(y, verify, calls);
            feed in z.state.commitments && z.state.commitments[feed] == y.state.commitments[feed]
    decreases |calls|
  {
    if calls != [] {
      assert calls[0] in calls;
      SettledStays(Step(y, verify, calls[0].0, calls[0].1), verify, calls[1..], feed);
    }
  }

  /** No call of the run is signed by `admin`, and the contract is not initialised again. */
  ghost predicate WithoutAdmin(calls: seq<(U32, Call)>, admin: Address) {
    forall c :: c in calls ==> admin !in c.1.signers
  }

  // Without the administrator's signature neither window nor key changes, and the breaker can only trip.
  lemma {:induction false} SettingsNeedAdmin(y: System, verify: Verifier, calls: seq<(U32, Call)>)
    requires y.state.config.Some? && WithoutAdmin(calls, y.state.config.value.admin)
    ensures var s, t := y.state, Run(y, verify, calls).state;
            && t.config.Some? && t.config.value == s.config.value.(lastHeartbeat := t.config.value.lastHeartbeat)
            && (t.circuit == s.circuit || (s.circuit == CircuitBreaker.Active && t.circuit == Tripped))
    decreases |calls|
  {
    if calls != [] {
      assert calls[0] in calls;
      var z := Step(y, verify, calls[0].0, calls[0].1);
      SettingsNeedAdmin(z, verify, calls[1..]);
    }
  }

  // ---------------------------------------------------------------- the bridge against the contract

  ghost predicate LeavesFeed(calls: seq<(U32, Call)>, feed: FeedId) {
    forall c :: c in calls ==> !Touches(c.1, feed)
  }

  lemma {:induction false} UntouchedCommitmentStays(y: System, verify: Verifier, calls: seq<(U32, Call)>, feed: FeedId)
    requires y.state.config.Some? && feed in y.state.commitments && LeavesFeed(calls, feed)
    ensures var z := Run(y, verify, calls);
            && z.state.config.Some? && feed in z.state.commitments
            && z.state.commitments[feed] == y.state.commitments[feed]
    decreases |calls|
  {
    if calls != [] {
      assert calls[0] in calls;
      UntouchedCommitmentStays(Step(y, verify, calls[0].0, calls[0].1), verify, calls[1..], feed);
    }
  }

  // End to end: if the contract accepted the bridge's digest for the padded feed, and nothing has touched the feed
  // since, then from the deadline on the bridge's reveal of the same result and salt passes the hash check, and is
  // accepted when the signature verifies and the content id is short enough.
  lemma BridgeRevealIsAccepted(y: System, verify: Verifier, result: GeeResult, salt: Bytes32, at: U32,
                               committer: Address, calls: seq<(U32, Call)>, now: U32, signers: set<Address>,
                               who: Address, signature: Signature, cid: Option<seq<Byte>>)
    requires BridgeReveal(result).Ok? && CommittedDigest(result, salt).Ok? && PadFeedId(result.feedId).Ok?
    requires Try(y.state, verify, at,
             Commit({committer}, committer, PadFeedId(result.feedId).value, CommittedDigest(result, salt).value)).Ok?
    requires LeavesFeed(calls, PadFeedId(result.feedId).value)
    requires who in signers
    ensures var p := BridgeReveal(result).value;
            var z := Run(Step(y, verify, at,
                Commit({committer}, committer, p.feedId, CommittedDigest(result, salt).value)), verify, calls);
            && p.Valid() && z.state.config.Some?
            && var cfg := z.state.config.value;
               at + cfg.window <= now ==>
                 var r := z.state.RevealPrice(verify, signers, now, who, p.feedId, RevealOf(p), salt, signature, cid);
                 && r != Err(InvalidReveal)
                 && (r.Ok? <==> verify(cfg.oracleKey, Attested(RevealOf(p), p.feedId), signature)
                                && (cid.Some? ==> |cid.value| <= MAX_CID_LEN))
  {
    CommitMatchesReveal(result, salt);
    var p := BridgeReveal(result).value;
    var committed := Step(y, verify, at, Commit({committer}, committer, p.feedId, CommittedDigest(result, salt).value));
    UntouchedCommitmentStays(committed, verify, calls, p.feedId);
    assert HashOf(RevealOf(p), p.feedId, salt) == committed.state.commitments[p.feedId].hash;
  }

  // Without a fixed window the age is only the window in force at the reveal: shortening it to zero lets a price be
  // revealed in the ledger that committed it.
  lemma ShortenedWindowRevealsAtOnce(verify: Verifier, values: Reveal, feed: FeedId, salt: Bytes32,
                                     signature: Signature)
    requires verify(7, Attested(values, feed), signature)
    ensures var calls := [(5, Initialize({1}, 1, 7, 100)), (5, Commit({2}, 2, feed, HashOf(values, feed, salt))),
                          (5, SetWindow({1}, 1, 0)), (5, RevealValues({2}, 2, feed, values, salt, signature, None))];
            var y := Run(System(EMPTY, []), verify, calls);
            |y.log| == 4 && feed in y.state.prices && y.state.prices[feed] == PriceEntry(values, 5, [])
  {
    var c0, c1 := (5, Initialize({1}, 1, 7, 100)), (5, Commit({2}, 2, feed, HashOf(values, feed, salt)));
    var c2, c3 := (5, SetWindow({1}, 1, 0)), (5, RevealValues({2}, 2, feed, values, salt, signature, None));
    var y0 := Step(System(EMPTY, []), verify, 5, c0.1);
    var y1 := Step(y0, verify, 5, c1.1);
    var y2 := Step(y1, verify, 5, c2.1);
    var y3 := Step(y2, verify, 5, c3.1);
    assert [c0, c1, c2, c3][1..] == [c1, c2, c3] && [c1, c2, c3][1..] == [c2, c3] && [c2, c3][1..] == [c3];
    assert [c3][1..] == [];
    assert Run(y2, verify, [c3]) == Run(y3, verify, []) == y3;
    assert Run(y1, verify, [c2, c3]) == Run(y2, verify, [c3]);
    assert Run(y0, verify, [c1, c2, c3]) == Run(y1, verify, [c2, c3]);
  }
}
