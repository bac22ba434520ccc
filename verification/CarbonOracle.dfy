/** Commit, challenge and reveal of oracle prices: contracts/carbon_oracle. */
module CarbonOracle {
  import opened Base
  import opened Bytes
  import opened Attestation

  type FeedId = Bytes32
  type Key = int
  type Signature = int

  /** Ed25519 verification (section 5.1.7 of RFC 8032) as an opaque predicate. */
  type Verifier = (Key, seq<Byte>, Signature) -> bool

  datatype CommitmentState = Committed | ChallengeWindow | Revealed | Disputed

  datatype Commitment = Commitment(hash: Digest, recordedAt: U32, state: CommitmentState)

  datatype PriceEntry = PriceEntry(values: Reveal, recordedAt: U32, cid: seq<Byte>)

  datatype CircuitBreaker = Active | Tripped | AdminPaused

  datatype Config = Config(admin: Address, oracleKey: Key, window: U32, lastHeartbeat: int)

  datatype OracleError =
    | AlreadyInitialized
    | NotInitialized
    | Unauthorized
    | CommitmentNotFound
    | CommitmentActive
    | ChallengeWindowNotExpired
    | ChallengeWindowExpired
    | InvalidReveal
    | InvalidCommitmentState
    | CidTooLong
    | CircuitBreakerOpen
    | HostTrap // a failed `require_auth`, a failed signature check or a u32 overflow

  const MAX_CID_LEN := 64

  function CidBytes(cid: Option<seq<Byte>>): Result<seq<Byte>, OracleError> {
    if cid.None? then Ok([]) else if |cid.value| > MAX_CID_LEN then Err(CidTooLong) else Ok(cid.value)
  }

  /** The first ledger at which the challenge window is over; the checked u32 addition can trap. */
  function Deadline(recordedAt: U32, window: U32): Result<U32, OracleError> {
    if recordedAt + window > 0xFFFF_FFFF then Err(HostTrap) else Ok(recordedAt + window)
  }

  function SaturateI64(x: int): int {
    if x > I64_MAX then I64_MAX else x
  }

  /** A move of more than 100% against the previous price trips the breaker. */
  predicate Deviates(previous: I64, value: I64) {
    var delta, baseline := SaturateI64(Abs(value - previous)), SaturateI64(Abs(previous));
    baseline > 0 && delta * 10_000 > baseline * 10_000
  }

  function Attested(values: Reveal, feed: FeedId): seq<Byte> {
    SignedPayload(SCHEMA_VERSION, values, feed).ToBytes().value
  }

  function HashOf(values: Reveal, feed: FeedId, salt: Bytes32): Digest {
    Digest(CommitmentPayload(values, feed, salt))
  }

  const EMPTY := Oracle(None, Active, map[], map[])

  datatype Oracle = Oracle(
    config: Option<Config>,
    circuit: CircuitBreaker,
    commitments: map<FeedId, Commitment>,
    prices: map<FeedId, PriceEntry>)
  {
    function Initialize(signers: set<Address>, admin: Address, key: Key, window: U32)
      : Result<(Oracle, ()), OracleError>
    {
      if config.Some? then Err(AlreadyInitialized)
      else if admin !in signers then Err(HostTrap)
      else Ok((this.(config := Some(Config(admin, key, window, 0))), ()))
    }

    /** set_challenge_window, rotate_key and the three breaker calls share this gate. */
    function AsAdmin(signers: set<Address>, admin: Address): Result<Config, OracleError> {
      if config.None? then Err(NotInitialized)
      else if admin !in signers then Err(HostTrap)
      else if admin != config.value.admin then Err(Unauthorized)
      else Ok(config.value)
    }

    function SetWindow(signers: set<Address>, admin: Address, window: U32): Result<(Oracle, ()), OracleError> {
      var cfg :- AsAdmin(signers, admin);
      Ok((this.(config := Some(cfg.(window := window))), ()))
    }

    function RotateKey(signers: set<Address>, admin: Address, key: Key): Result<(Oracle, ()), OracleError> {
      var cfg :- AsAdmin(signers, admin);
      Ok((this.(config := Some(cfg.(oracleKey := key))), ()))
    }

    function SetCircuit(signers: set<Address>, admin: Address, circuit: CircuitBreaker)
      : Result<(Oracle, ()), OracleError>
    {
      var cfg :- AsAdmin(signers, admin);
      Ok((this.(circuit := circuit), ()))
    }

    function Heartbeat(signers: set<Address>, oracle: Address, at: int): Result<(Oracle, ()), OracleError> {
      if config.None? then Err(NotInitialized)
      else if circuit != Active then Err(CircuitBreakerOpen)
      else if oracle !in signers then Err(HostTrap)
      else Ok((this.(config := Some(config.value.(lastHeartbeat := at))), ()))
    }

    function CommitPrice(signers: set<Address>, now: U32, oracle: Address, feed: FeedId, hash: Digest)
      : Result<(Oracle, ()), OracleError>
    {
      if config.None? then Err(NotInitialized)
      else if oracle !in signers then Err(HostTrap)
      else if feed in commitments
          && (commitments[feed].state == CommitmentState.Committed || commitments[feed].state == ChallengeWindow)
      then Err(CommitmentActive)
      else Ok((this.(commitments := commitments[feed := Commitment(hash, now, ChallengeWindow)]), ()))
    }

    function ChallengePrice(signers: set<Address>, now: U32, challenger: Address, feed: FeedId)
      : Result<(Oracle, ()), OracleError>
    {
      if config.None? then Err(NotInitialized)
      else if challenger !in signers then Err(HostTrap)
      else if feed !in commitments then Err(CommitmentNotFound)
      else if commitments[feed].state != ChallengeWindow then Err(InvalidCommitmentState)
      else
        var deadline :- Deadline(commitments[feed].recordedAt, config.value.window);
        if now >= deadline then Err(ChallengeWindowExpired)
        else Ok((this.(commitments := commitments[feed := commitments[feed].(state := Disputed)]), ()))
    }

    function RevealPrice(verify: Verifier, signers: set<Address>, now: U32, oracle: Address, feed: FeedId,
                         values: Reveal, salt: Bytes32, signature: Signature, cid: Option<seq<Byte>>)
      : Result<(Oracle, ()), OracleError>
    {
      if config.None? then Err(NotInitialized)
      else if oracle !in signers then Err(HostTrap)
      else if feed !in commitments then Err(CommitmentNotFound)
      else if commitments[feed].state != ChallengeWindow then Err(InvalidCommitmentState)
      else
        var deadline :- Deadline(commitments[feed].recordedAt, config.value.window);
        if now < deadline then Err(ChallengeWindowNotExpired)
        else if HashOf(values, feed, salt) != commitments[feed].hash then Err(InvalidReveal)
        else if !verify(config.value.oracleKey, Attested(values, feed), signature) then Err(HostTrap)
        else
          var bytes :- CidBytes(cid);
          Ok((this.(commitments := commitments[feed := commitments[feed].(state := Revealed)],
                    prices := prices[feed := PriceEntry(values, now, bytes)]), ()))
    }

    function SubmitPrice(verify: Verifier, signers: set<Address>, now: U32, oracle: Address, feed: FeedId,
                         values: Reveal, signature: Signature, cid: Option<seq<Byte>>)
      : Result<(Oracle, ()), OracleError>
    {
      if config.None? then Err(NotInitialized)
      else if circuit != Active then Err(CircuitBreakerOpen)
      else if oracle !in signers then Err(HostTrap)
      else if !verify(config.value.oracleKey, Attested(values, feed), signature) then Err(HostTrap)
      else
        var trips := feed in prices && Deviates(prices[feed].values.outputValue, values.outputValue);
        var bytes :- CidBytes(cid);
        Ok((this.(circuit := if trips then Tripped else circuit,
                  prices := prices[feed := PriceEntry(values, now, bytes)]), ()))
    }
  }

  /** The contract over its mutable storage. */
  class OracleContract {
    var config: Option<Config>
    var circuit: CircuitBreaker
    var commitments: map<FeedId, Commitment>
    var prices: map<FeedId, PriceEntry>
    const verify: Verifier

    ghost function State(): Oracle
      reads this
    {
      Oracle(config, circuit, commitments, prices)
    }

    constructor (verify: Verifier)
      ensures State() == EMPTY && this.verify == verify
    {
      config, circuit, commitments, prices := None, Active, map[], map[];
      this.verify := verify;
    }

    method Initialize(signers: set<Address>, admin: Address, key: Key, window: U32) returns (r: Result<(), OracleError>)
      modifies this
      ensures Base.Committed(old(State()), State(), r, old(State()).Initialize(signers, admin, key, window))
    {
      if config.Some? {
        return Err(AlreadyInitialized);
      }
      if admin !in signers {
        return Err(HostTrap);
      }
      config := Some(Config(admin, key, window, 0));
      return Ok(());
    }

    method SetWindow(signers: set<Address>, admin: Address, window: U32) returns (r: Result<(), OracleError>)
      modifies this
      ensures Base.Committed(old(State()), State(), r, old(State()).SetWindow(signers, admin, window))
    {
      if config.None? {
        return Err(NotInitialized);
      }
      if admin !in signers {
        return Err(HostTrap);
      }
      if admin != config.value.admin {
        return Err(Unauthorized);
      }
      config := Some(config.value.(window := window));
      return Ok(());
    }

    method RotateKey(signers: set<Address>, admin: Address, key: Key) returns (r: Result<(), OracleError>)
      modifies this
      ensures Base.Committed(old(State()), State(), r, old(State()).RotateKey(signers, admin, key))
    {
      if config.None? {
        return Err(NotInitialized);
      }
      if admin !in signers {
        return Err(HostTrap);
      }
      if admin != config.value.admin {
        return Err(Unauthorized);
      }
      config := Some(config.value.(oracleKey := key));
      return Ok(());
    }

    /** trip_circuit_breaker, admin_pause and reset_circuit_breaker differ only in the state they write. */
    method SetCircuit(signers: set<Address>, admin: Address, state: CircuitBreaker) returns (r: Result<(), OracleError>)
      modifies this
      ensures Base.Committed(old(State()), State(), r, old(State()).SetCircuit(signers, admin, state))
    {
      if config.None? {
        return Err(NotInitialized);
      }
      if admin !in signers {
        return Err(HostTrap);
      }
      if admin != config.value.admin {
        return Err(Unauthorized);
      }
      circuit := state;
      return Ok(());
    }

    method Heartbeat(signers: set<Address>, oracle: Address, at: int) returns (r: Result<(), OracleError>)
      modifies this
      ensures Base.Committed(old(State()), State(), r, old(State()).Heartbeat(signers, oracle, at))
    {
      if config.None? {
        return Err(NotInitialized);
      }
      if circuit != Active {
        return Err(CircuitBreakerOpen);
      }
      if oracle !in signers {
        return Err(HostTrap);
      }
      config := Some(config.value.(lastHeartbeat := at));
      return Ok(());
    }

    method CommitPrice(signers: set<Address>, now: U32, oracle: Address, feed: FeedId, hash: Digest)
      returns (r: Result<(), OracleError>)
      modifies this
      ensures Base.Committed(old(State()), State(), r, old(State()).CommitPrice(signers, now, oracle, feed, hash))
    {
      if config.None? {
        return Err(NotInitialized);
      }
      if oracle !in signers {
        return Err(HostTrap);
      }
      if feed in commitments {
        var existing := commitments[feed];
        if existing.state == CommitmentState.Committed || existing.state == ChallengeWindow {
          return Err(CommitmentActive);
        }
      }
      commitments := commitments[feed := Commitment(hash, now, ChallengeWindow)];
      return Ok(());
    }

    method ChallengePrice(signers: set<Address>, now: U32, challenger: Address, feed: FeedId)
      returns (r: Result<(), OracleError>)
      modifies this
      ensures Base.Committed(old(State()), State(), r, old(State()).ChallengePrice(signers, now, challenger, feed))
    {
      if config.None? {
        return Err(NotInitialized);
      }
      if challenger !in signers {
        return Err(HostTrap);
      }
      if feed !in commitments {
        return Err(CommitmentNotFound);
      }
      var commitment := commitments[feed];
      if commitment.state != ChallengeWindow {
        return Err(InvalidCommitmentState);
      }
      var deadline :- Deadline(commitment.recordedAt, config.value.window);
      if now >= deadline {
        return Err(ChallengeWindowExpired);
      }
      commitments := commitments[feed := commitment.(state := Disputed)];
      return Ok(());
    }

    method RevealPrice(signers: set<Address>, now: U32, oracle: Address, feed: FeedId, values: Reveal, salt: Bytes32,
                       signature: Signature, cid: Option<seq<Byte>>)
      returns (r: Result<(), OracleError>)
      modifies this
      ensures Base.Committed(old(State()), State(), r,
                        old(State()).RevealPrice(verify, signers, now, oracle, feed, values, salt, signature, cid))
    {
      if config.None? {
        return Err(NotInitialized);
      }
      if oracle !in signers {
        return Err(HostTrap);
      }
      if feed !in commitments {
        return Err(CommitmentNotFound);
      }
      var commitment := commitments[feed];
      if commitment.state != ChallengeWindow {
        return Err(InvalidCommitmentState);
      }
      var deadline :- Deadline(commitment.recordedAt, config.value.window);
      if now < deadline {
        return Err(ChallengeWindowNotExpired);
      }
      var payload := BuildCommitmentPayload(values, feed, salt);
      if Digest(payload) != commitment.hash {
        return Err(InvalidReveal);
      }
      var message := BuildPayload(SCHEMA_VERSION, values, feed);
      if !verify(config.value.oracleKey, message, signature) {
        return Err(HostTrap);
      }
      var saved := commitments;
      commitments := commitments[feed := commitment.(state := Revealed)];
      var bytes := CidBytes(cid);
      if bytes.Err? {
        commitments := saved;
        return Err(bytes.error);
      }
      prices := prices[feed := PriceEntry(values, now, bytes.value)];
      return Ok(());
    }

    method SubmitPrice(signers: set<Address>, now: U32, oracle: Address, feed: FeedId, values: Reveal,
                       signature: Signature, cid: Option<seq<Byte>>)
      returns (r: Result<(), OracleError>)
      modifies this
      ensures Base.Committed(old(State()), State(), r,
                        old(State()).SubmitPrice(verify, signers, now, oracle, feed, values, signature, cid))
    {
      if config.None? {
        return Err(NotInitialized);
      }
      if circuit != Active {
        return Err(CircuitBreakerOpen);
      }
      if oracle !in signers {
        return Err(HostTrap);
      }
      var message := BuildPayload(SCHEMA_VERSION, values, feed);
      if !verify(config.value.oracleKey, message, signature) {
        return Err(HostTrap);
      }
      var saved := circuit;
      if feed in prices && Deviates(prices[feed].values.outputValue, values.outputValue) {
        circuit := Tripped;
      }
      var bytes := CidBytes(cid);
      if bytes.Err? {
        circuit := saved;
        return Err(bytes.error);
      }
      prices := prices[feed := PriceEntry(values, now, bytes.value)];
      return Ok(());
    }
  }
}
