/** When the oracle contract takes a price, and whose signature every stored price carries. */
module OraclePrices {
  import opened Base
  import opened Bytes
  import opened Attestation
  import opened CarbonOracle
  import opened OracleHistory

  // ---------------------------------------------------------------- the signed message

  /** Byte `k` of a 64-bit integer in two's complement, most significant byte first. */
  function ByteOf(v: I64, k: nat): int
    requires k < 8
  {
    (if v < 0 then v + 0x1_0000_0000_0000_0000 else v) / Pow256(7 - k) % 256
  }

  // Where every field lies in the message an oracle signs.
  lemma MessageLayout(values: Reveal, feed: FeedId)
    ensures var m := Attested(values, feed);
            && |m| == 113 && m[0] == 1
            && m[1..33] == values.scriptHash && m[33..65] == values.paramsHash && m[81..] == feed
            && (forall k :: 0 <= k < 8 ==> m[65 + k] == ByteOf(values.outputValue, k))
            && (forall k :: 0 <= k < 8 ==> m[73 + k] == ByteOf(values.timestamp, k))
  {
    var m := Attested(values, feed);
    assert m[65..73] == I64Bytes(values.outputValue) && m[73..81] == I64Bytes(values.timestamp);
    forall k | 0 <= k < 8
      ensures m[65 + k] == ByteOf(values.outputValue, k) && m[73 + k] == ByteOf(values.timestamp, k)
    {
      assert m[65 + k] == m[65..73][k] && m[73 + k] == m[73..81][k];
      ToBeBytesIsI64Bytes(values.outputValue);
      ToBeBytesIsI64Bytes(values.timestamp);
    }
  }

  // And in the message a commitment hashes.
  lemma CommitmentLayout(values: Reveal, feed: FeedId, salt: Bytes32)
    ensures var m := HashOf(values, feed, salt).preimage;
            && |m| == 144
            && m[..32] == values.scriptHash && m[32..64] == values.paramsHash && m[80..112] == feed && m[112..] == salt
            && (forall k :: 0 <= k < 8 ==> m[64 + k] == ByteOf(values.outputValue, k))
            && (forall k :: 0 <= k < 8 ==> m[72 + k] == ByteOf(values.timestamp, k))
  {
    var m := HashOf(values, feed, salt).preimage;
    assert m[64..72] == I64Bytes(values.outputValue) && m[72..80] == I64Bytes(values.timestamp);
    forall k | 0 <= k < 8
      ensures m[64 + k] == ByteOf(values.outputValue, k) && m[72 + k] == ByteOf(values.timestamp, k)
    {
      assert m[64 + k] == m[64..72][k] && m[72 + k] == m[72..80][k];
      ToBeBytesIsI64Bytes(values.outputValue);
      ToBeBytesIsI64Bytes(values.timestamp);
    }
  }

  // ---------------------------------------------------------------- when a price is taken

  predicate SignedUnder(s: Oracle, verify: Verifier, values: Reveal, feed: FeedId, signature: Signature) {
    s.config.Some? && verify(s.config.value.oracleKey, Attested(values, feed), signature)
  }

  predicate ShortCid(cid: Option<seq<Byte>>) {
    cid.Some? ==> |cid.value| <= 64
  }

  /** The content id as it is stored; none is stored as the empty one. */
  function StoredCid(cid: Option<seq<Byte>>): seq<Byte> {
    if cid.Some? then cid.value else []
  }

  /** A submission moves the price by more than its own size, below the end of the 64-bit range. */
  predicate JumpsTooFar(s: Oracle, feed: FeedId, value: I64) {
    && feed in s.prices
    && var previous := s.prices[feed].values.outputValue;
       || (0 < previous < 0x7FFF_FFFF_FFFF_FFFF && !(0 <= value <= 2 * previous))
       || (-0x7FFF_FFFF_FFFF_FFFF < previous < 0 && !(2 * previous <= value <= 0))
  }

  // A submission is taken exactly when the breaker is closed, its oracle signed the call, the configured key signed the
  // values and the content id is short; it then stores these values, and trips the breaker exactly on a jump.
  lemma SubmissionExactly(s: Oracle, verify: Verifier, signers: set<Address>, now: U32, oracle: Address, feed: FeedId,
                          values: Reveal, signature: Signature, cid: Option<seq<Byte>>)
    ensures var r := s.SubmitPrice(verify, signers, now, oracle, feed, values, signature, cid);
            && (r.Ok? <==> s.circuit == Active && oracle in signers && ShortCid(cid)
                           && SignedUnder(s, verify, values, feed, signature))
            && (r == Err(NotInitialized) <==> s.config.None?)
            && (r == Err(CircuitBreakerOpen) <==> s.config.Some? && s.circuit != Active)
            && (r == Err(CidTooLong) <==> s.circuit == Active && oracle in signers && !ShortCid(cid)
                                          && SignedUnder(s, verify, values, feed, signature))
            && (r.Ok? ==>
                  var t := r.value.0;
                  && t.config == s.config && t.commitments == s.commitments
                  && t.prices == s.prices[feed := PriceEntry(values, now, StoredCid(cid))]
                  && t.circuit == if JumpsTooFar(s, feed, values.outputValue) then Tripped else Active)
  {
  }

  /** The ledger from which the open commitment may be revealed; it may not fit the 32 bits of a ledger number. */
  function DeadlineOf(s: Oracle, feed: FeedId): int
    requires s.config.Some? && feed in s.commitments
  {
    s.commitments[feed].recordedAt + s.config.value.window
  }

  ghost predicate Waiting(s: Oracle, signers: set<Address>, who: Address, feed: FeedId) {
    && s.config.Some? && who in signers && feed in s.commitments && s.commitments[feed].state == ChallengeWindow
    && DeadlineOf(s, feed) <= 0xFFFF_FFFF
  }

  // A reveal is taken exactly from the deadline of an open commitment on, with the committed values and salt, the
  // configured key's signature and a short content id.
  lemma RevealExactly(s: Oracle, verify: Verifier, signers: set<Address>, now: U32, oracle: Address, feed: FeedId,
                      values: Reveal, salt: Bytes32, signature: Signature, cid: Option<seq<Byte>>)
    ensures var r := s.RevealPrice(verify, signers, now, oracle, feed, values, salt, signature, cid);
            && (r.Ok? <==> Waiting(s, signers, oracle, feed) && DeadlineOf(s, feed) <= now && ShortCid(cid)
                           && HashOf(values, feed, salt) == s.commitments[feed].hash
                           && SignedUnder(s, verify, values, feed, signature))
            && (r == Err(NotInitialized) <==> s.config.None?)
            && (s.config.Some? && oracle in signers ==>
                  && (r == Err(CommitmentNotFound) <==> feed !in s.commitments)
                  && (r == Err(InvalidCommitmentState)
                      <==> feed in s.commitments && s.commitments[feed].state != ChallengeWindow))
            && (r == Err(ChallengeWindowNotExpired) <==> Waiting(s, signers, oracle, feed) && now < DeadlineOf(s, feed))
            && (r == Err(InvalidReveal)
                <==> Waiting(s, signers, oracle, feed) && DeadlineOf(s, feed) <= now
                     && HashOf(values, feed, salt) != s.commitments[feed].hash)
            && (r.Ok? ==>
                  var t, c := r.value.0, s.commitments[feed];
                  && t.config == s.config && t.circuit == s.circuit
                  && t.commitments == s.commitments[feed := Commitment(c.hash, c.recordedAt, Revealed)]
                  && t.prices == s.prices[feed := PriceEntry(values, now, StoredCid(cid))])
  {
  }

  // A challenge is taken exactly before the deadline of an open commitment.
  lemma ChallengeExactly(s: Oracle, signers: set<Address>, now: U32, challenger: Address, feed: FeedId)
    ensures var r := s.ChallengePrice(signers, now, challenger, feed);
            && (r.Ok? <==> Waiting(s, signers, challenger, feed) && now < DeadlineOf(s, feed))
            && (r == Err(ChallengeWindowExpired)
                <==> Waiting(s, signers, challenger, feed) && DeadlineOf(s, feed) <= now)
            && (s.config.Some? && challenger in signers ==>
                  && (r == Err(CommitmentNotFound) <==> feed !in s.commitments)
                  && (r == Err(InvalidCommitmentState)
                      <==> feed in s.commitments && s.commitments[feed].state != ChallengeWindow))
            && (r.Ok? ==>
                  var c := s.commitments[feed];
                  r.value.0 == Oracle(s.config, s.circuit,
                                      s.commitments[feed := Commitment(c.hash, c.recordedAt, Disputed)], s.prices))
  {
  }

  // A commitment is taken exactly when its oracle signed the call and none of the feed is open.
  lemma CommitExactly(s: Oracle, signers: set<Address>, now: U32, oracle: Address, feed: FeedId, hash: Digest)
    ensures var r := s.CommitPrice(signers, now, oracle, feed, hash);
            && (r.Ok? <==> s.config.Some? && oracle in signers
                           && (feed in s.commitments ==> s.commitments[feed].state in {Revealed, Disputed}))
            && (r == Err(CommitmentActive)
                <==> s.config.Some? && oracle in signers && feed in s.commitments
                     && s.commitments[feed].state !in {Revealed, Disputed})
            && (r.Ok? ==>
                  r.value.0 == Oracle(s.config, s.circuit,
                                      s.commitments[feed := Commitment(hash, now, ChallengeWindow)], s.prices))
  {
  }

  /** What a call makes of the settings, if it is one that may. */
  ghost predicate Sets(s: Oracle, call: Call, t: Oracle) {
    match call
    case Initialize(signers, admin, key, window) =>
      s.config.None? && admin in signers && t == Oracle(Some(Config(admin, key, window, 0)), s.circuit, s.commitments,
          s.prices)
    case SetWindow(signers, admin, window) =>
      s.config.Some? && admin in signers && admin == s.config.value.admin
      && t == s.(config := Some(Config(admin, s.config.value.oracleKey, window, s.config.value.lastHeartbeat)))
    case RotateKey(signers, admin, key) =>
      s.config.Some? && admin in signers && admin == s.config.value.admin
      && t == s.(config := Some(Config(admin, key, s.config.value.window, s.config.value.lastHeartbeat)))
    case SetCircuit(signers, admin, circuit) =>
      s.config.Some? && admin in signers && admin == s.config.value.admin
      && t == Oracle(s.config, circuit, s.commitments, s.prices)
    case Heartbeat(signers, oracle, at) =>
      s.config.Some? && oracle in signers && s.circuit == Active
      && t == s.(config := Some(s.config.value.(lastHeartbeat := at)))
    case _ => false
  }

  predicate Setting(call: Call) {
    call.Initialize? || call.SetWindow? || call.RotateKey? || call.SetCircuit? || call.Heartbeat?
  }

  // Settings change exactly as their callers are entitled to change them.
  lemma SettingsExactly(s: Oracle, verify: Verifier, now: U32, call: Call, t: Oracle)
    requires Setting(call)
    ensures Try(s, verify, now, call) == Ok((t, ())) <==> Sets(s, call, t)
  {
  }

  // ---------------------------------------------------------------- every price is signed

  /** What a write carries is signed under the key in force when it was accepted. */
  ghost predicate Vouched(log: seq<Accepted>, verify: Verifier, k: nat)
    requires k < |log|
  {
    var call := log[k].call;
    call.RevealValues? || call.Submit? ==>
      log[k].key.Some? && verify(log[k].key.value, Attested(call.values, call.feed), call.signature)
  }

  /** The key the log says is in force after it: the one set last. */
  function LastKey(log: seq<Accepted>): Option<Key>
    decreases |log|
  {
    if log == [] then None
    else
      var call := log[|log| - 1].call;
      if call.Initialize? || call.RotateKey? then Some(call.key) else LastKey(log[..|log| - 1])
  }

  ghost predicate Signed(y: System, verify: Verifier) {
    && KeyOf(y.state) == LastKey(y.log)
    && forall k: nat :: k < |y.log| ==> y.log[k].key == LastKey(y.log[..k]) && Vouched(y.log, verify, k)
  }

  lemma NewEntryIsVouched(y: System, verify: Verifier, now: U32, call: Call)
    requires Try(y.state, verify, now, call).Ok?
    ensures Vouched(Step(y, verify, now, call).log, verify, |y.log|)
  {
    if call.RevealValues? {
      RevealExactly(y.state, verify, call.signers, now, call.oracle, call.feed, call.values, call.salt, call.signature,
                    call.cid);
    } else if call.Submit? {
      SubmissionExactly(y.state, verify, call.signers, now, call.oracle, call.feed, call.values, call.signature,
                        call.cid);
    }
  }

  lemma KeyIsLastSet(y: System, verify: Verifier, now: U32, call: Call)
    requires KeyOf(y.state) == LastKey(y.log)
    ensures var z := Step(y, verify, now, call);
            KeyOf(z.state) == LastKey(z.log)
  {
    var z := Step(y, verify, now, call);
    if Try(y.state, verify, now, call).Ok? {
      assert z.log[..|y.log|] == y.log;
    }
  }

  lemma SignedStep(y: System, verify: Verifier, now: U32, call: Call)
    requires Signed(y, verify)
    ensures Signed(Step(y, verify, now, call), verify)
  {
    var z := Step(y, verify, now, call);
    KeyIsLastSet(y, verify, now, call);
    if Try(y.state, verify, now, call).Ok? {
      var n := |y.log|;
      assert z.log[..n] == y.log;
      forall k: nat | k < |z.log| ensures z.log[k].key == LastKey(z.log[..k]) && Vouched(z.log, verify, k) {
        if k < n {
          assert z.log[..k] == y.log[..k] && Vouched(y.log, verify, k);
        } else {
          NewEntryIsVouched(y, verify, now, call);
        }
      }
    }
  }

  lemma {:induction false} EveryRunIsSigned(y: System, verify: Verifier, calls: seq<(U32, Call)>)
    requires Signed(y, verify)
    ensures Signed(Run(y, verify, calls), verify)
    decreases |calls|
  {
    if calls != [] {
      SignedStep(y, verify, calls[0].0, calls[0].1);
      EveryRunIsSigned(Step(y, verify, calls[0].0, calls[0].1), verify, calls[1..]);
    }
  }

  /** The `k`-th accepted call wrote the stored price, and its signature is valid under the key set last before it. */
  ghost predicate SignedBy(y: System, verify: Verifier, feed: FeedId, entry: PriceEntry, k: nat) {
    && k < |y.log|
    && var accepted, key := y.log[k], LastKey(y.log[..k]);
       && Writes(accepted.call, feed) && accepted.at == entry.recordedAt
       && accepted.call.values == entry.values && StoredCid(accepted.call.cid) == entry.cid
       && key.Some? && verify(key.value, Attested(entry.values, feed), accepted.call.signature)
  }

  lemma WriterOf(y: System, verify: Verifier, feed: FeedId, entry: PriceEntry) returns (k: nat)
    requires Written(y.log, feed, entry) && Signed(y, verify)
    ensures SignedBy(y, verify, feed, entry, k)
  {
    k :| k < |y.log| && Writes(y.log[k].call, feed) && y.log[k].call.values == entry.values
         && CidBytes(y.log[k].call.cid) == Ok(entry.cid) && y.log[k].at == entry.recordedAt;
    assert Vouched(y.log, verify, k);
  }

  // Over every run from empty storage: each stored price was carried by an accepted call and is signed under the key
  // set last before it.
  lemma EveryPriceIsSigned(verify: Verifier, calls: seq<(U32, Call)>, feed: FeedId)
    requires feed in Run(System(EMPTY, []), verify, calls).state.prices
    ensures var y := Run(System(EMPTY, []), verify, calls);
            exists k: nat :: SignedBy(y, verify, feed, y.state.prices[feed], k)
  {
    var y := Run(System(EMPTY, []), verify, calls);
    EveryRunIsRecorded(System(EMPTY, []), verify, calls);
    EveryRunIsSigned(System(EMPTY, []), verify, calls);
    var k := WriterOf(y, verify, feed, y.state.prices[feed]);
  }
}
