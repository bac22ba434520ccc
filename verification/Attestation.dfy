/**
 * The bytes that are hashed and signed: the bridge's encoders (oracle-bridge/oracle_bridge/attestation.py,
 * bridge.py) and the contract's own builders (contracts/carbon_oracle/src/lib.rs).
 */
module Attestation {
  import opened Base
  import opened Bytes

  const SCHEMA_VERSION := 1
  const PAYLOAD_LENGTH := 113

  datatype AttestationError =
    | BadScriptHash
    | BadParamsHash
    | BadFeedId
    | OutputOutOfRange
    | TimestampOutOfRange
    | BadVersion
    | WrongLength
    | BadHex
    | BadPublicKey
    | BadSignature

  datatype Payload = Payload(
    scriptHash: seq<Byte>,
    paramsHash: seq<Byte>,
    outputValue: int,
    timestamp: int,
    feedId: seq<Byte>,
    schemaVersion: int)
  {
    /** The checks of `__post_init__`, in order; the version byte is not among them. */
    function Checked(): Result<Payload, AttestationError> {
      if |scriptHash| != 32 then Err(BadScriptHash)
      else if |paramsHash| != 32 then Err(BadParamsHash)
      else if |feedId| != 32 then Err(BadFeedId)
      else if !InI64(outputValue) then Err(OutputOutOfRange)
      else if !InI64(timestamp) then Err(TimestampOutOfRange)
      else Ok(this)
    }

    predicate Valid() {
      Checked().Ok?
    }

    /** struct.pack(">B32s32sqq32s", ...): only the version byte can still be out of range. */
    function ToBytes(): Result<seq<Byte>, AttestationError>
      requires Valid()
    {
      if !(0 <= schemaVersion < 256) then Err(BadVersion)
      else Ok([schemaVersion] + scriptHash + paramsHash + I64Bytes(outputValue) + I64Bytes(timestamp) + feedId)
    }
  }

  function FromBytes(data: seq<Byte>): Result<Payload, AttestationError> {
    if |data| != PAYLOAD_LENGTH then Err(WrongLength)
    else
      Payload(data[1..33], data[33..65], FromI64Bytes(data[65..73]), FromI64Bytes(data[73..81]), data[81..113], data[0])
        .Checked()
  }

  lemma BytesRoundTrip(p: Payload)
    requires p.Valid()
    ensures p.ToBytes().Ok? <==> 0 <= p.schemaVersion < 256
    ensures p.ToBytes().Ok? ==> |p.ToBytes().value| == PAYLOAD_LENGTH && FromBytes(p.ToBytes().value) == Ok(p)
  {
    if p.ToBytes().Ok? {
      var data := p.ToBytes().value;
      assert data[0] == p.schemaVersion;
      assert data[1..33] == p.scriptHash && data[33..65] == p.paramsHash && data[81..113] == p.feedId;
      assert data[65..73] == I64Bytes(p.outputValue) && data[73..81] == I64Bytes(p.timestamp);
      I64RoundTrip(p.outputValue);
      I64RoundTrip(p.timestamp);
    }
  }

  // Every 113-byte string is the encoding of exactly one valid payload.
  lemma PayloadRoundTrip(data: seq<Byte>)
    ensures FromBytes(data).Ok? <==> |data| == PAYLOAD_LENGTH
    ensures FromBytes(data).Ok? ==> FromBytes(data).value.Valid() && FromBytes(data).value.ToBytes() == Ok(data)
  {
    if |data| == PAYLOAD_LENGTH {
      var p := FromBytes(data).value;
      FromI64RoundTrip(data[65..73]);
      FromI64RoundTrip(data[73..81]);
      assert [p.schemaVersion] + p.scriptHash + p.paramsHash + I64Bytes(p.outputValue) + I64Bytes(p.timestamp)
             + p.feedId
          == data;
    }
  }

  // ---------------------------------------------------------------- hexadecimal envelopes

  /** The digits of bytes.hex(). */
  function HexDigit(d: nat): char
    requires d < 16
  {
    if d < 10 then '0' + d as char else 'a' + (d - 10) as char
  }

  function Hex(bs: seq<Byte>): string {
    if bs == [] then "" else [HexDigit(bs[0] / 16), HexDigit(bs[0] % 16)] + Hex(bs[1..])
  }

  function Digit(c: char): (d: Option<int>)
    ensures d.Some? ==> 0 <= d.value < 16
  {
    if '0' <= c <= '9' then Some(c as int - '0' as int)
    else if 'a' <= c <= 'f' then Some(c as int - 'a' as int + 10)
    else if 'A' <= c <= 'F' then Some(c as int - 'A' as int + 10)
    else None
  }

  predicate Blank(c: char) {
    c in " \t\n\r"
  }

  /** bytes.fromhex: pairs of digits, with ASCII whitespace allowed between pairs. */
  function FromHex(s: string): Result<seq<Byte>, AttestationError> {
    if s == "" then Ok([])
    else if Blank(s[0]) then FromHex(s[1..])
    else if |s| == 1 || Digit(s[0]).None? || Digit(s[1]).None? then Err(BadHex)
    else
      var rest :- FromHex(s[2..]);
      Ok([16 * Digit(s[0]).value + Digit(s[1]).value] + rest)
  }

  lemma DigitRoundTrip(d: nat)
    requires d < 16
    ensures Digit(HexDigit(d)) == Some(d) && !Blank(HexDigit(d))
  {
  }

  function CapitalHexDigit(d: nat): char
    requires d < 16
  {
    if d < 10 then '0' + d as char else 'A' + (d - 10) as char
  }

  // Capital digits count as well, and nothing else does.
  lemma CapitalDigit(d: nat)
    requires d < 16
    ensures Digit(CapitalHexDigit(d)) == Some(d)
  {
  }

  lemma DigitsExactly(c: char)
    requires Digit(c).Some?
    ensures var d := Digit(c).value;
            0 <= d < 16 && (c == HexDigit(d) || c == CapitalHexDigit(d))
  {
  }

  function Joined(first: Byte, rest: Result<seq<Byte>, AttestationError>): Result<seq<Byte>, AttestationError> {
    if rest.Ok? then Ok([first] + rest.value) else rest
  }

  // Two digits are read as one byte before the rest.
  lemma PairDecodes(s: string, high: int, low: int)
    requires |s| >= 2 && !Blank(s[0]) && Digit(s[0]) == Some(high) && Digit(s[1]) == Some(low)
    ensures FromHex(s) == Joined(16 * high + low, FromHex(s[2..]))
  {
  }

  lemma HexStarts(bs: seq<Byte>)
    requires bs != []
    ensures |Hex(bs)| >= 2 && Hex(bs)[0] == HexDigit(bs[0] / 16) && Hex(bs)[1] == HexDigit(bs[0] % 16)
    ensures Hex(bs)[2..] == Hex(bs[1..])
  {
  }

  lemma {:induction false} HexRoundTrip(bs: seq<Byte>)
    ensures FromHex(Hex(bs)) == Ok(bs)
  {
    if bs == [] {
      assert Hex(bs) == "" && FromHex("") == Ok([]);
    } else {
      HexRoundTrip(bs[1..]);
      HexStarts(bs);
      DigitRoundTrip(bs[0] / 16);
      DigitRoundTrip(bs[0] % 16);
      PairDecodes(Hex(bs), bs[0] / 16, bs[0] % 16);
      assert [bs[0]] + bs[1..] == bs;
    }
  }

  datatype SignedAttestation = SignedAttestation(payload: Payload, publicKey: seq<Byte>, signature: seq<Byte>) {
    predicate Valid() {
      payload.Valid() && |publicKey| == 32 && |signature| == 64
    }

    function ToDict(): Envelope {
      Envelope(payload.schemaVersion, Hex(payload.scriptHash), Hex(payload.paramsHash), payload.outputValue,
               payload.timestamp, Hex(payload.feedId), Hex(publicKey), Hex(signature))
    }
  }

  datatype Envelope = Envelope(
    schemaVersion: int,
    scriptHash: string,
    paramsHash: string,
    outputValue: int,
    timestamp: int,
    feedId: string,
    publicKey: string,
    signature: string)

  function FromDict(e: Envelope): Result<SignedAttestation, AttestationError> {
    var scriptHash :- FromHex(e.scriptHash);
    var paramsHash :- FromHex(e.paramsHash);
    var feedId :- FromHex(e.feedId);
    var payload :- Payload(scriptHash, paramsHash, e.outputValue, e.timestamp, feedId, e.schemaVersion).Checked();
    var publicKey :- FromHex(e.publicKey);
    var signature :- FromHex(e.signature);
    if |publicKey| != 32 then Err(BadPublicKey)
    else if |signature| != 64 then Err(BadSignature)
    else Ok(SignedAttestation(payload, publicKey, signature))
  }

  lemma DictRoundTrip(a: SignedAttestation)
    ensures FromDict(a.ToDict()).Ok? <==> a.Valid()
    ensures a.Valid() ==> FromDict(a.ToDict()) == Ok(a)
  {
    HexRoundTrip(a.payload.scriptHash);
    HexRoundTrip(a.payload.paramsHash);
    HexRoundTrip(a.payload.feedId);
    HexRoundTrip(a.publicKey);
    HexRoundTrip(a.signature);
  }

  // ---------------------------------------------------------------- the contract's builders

  /** `v.to_be_bytes()` on an i64: byte k is the word shifted right by 8 * (7 - k) bits. */
  function ToBeBytes(v: int): seq<Byte>
    requires InI64(v)
  {
    seq(8, k requires 0 <= k < 8 => Unsigned(v) / Pow256(7 - k) % 256)
  }

  lemma ToBeBytesIsI64Bytes(v: int)
    requires InI64(v)
    ensures ToBeBytes(v) == I64Bytes(v)
  {
    forall k | 0 <= k < 8 ensures ToBeBytes(v)[k] == I64Bytes(v)[k] {
      BigEndianByShift(Unsigned(v), 8, k);
    }
  }

  method PushAll(msg: seq<Byte>, bytes: seq<Byte>) returns (out: seq<Byte>)
    ensures out == msg + bytes
  {
    out := msg;
    for i := 0 to |bytes|
      invariant out == msg + bytes[..i]
    {
      out := out + [bytes[i]];
      assert bytes[..i + 1] == bytes[..i] + [bytes[i]];
    }
    assert bytes[..|bytes|] == bytes;
  }

  /** The values of one price: what an attestation signs and a commitment binds. */
  datatype Reveal = Reveal(scriptHash: Bytes32, paramsHash: Bytes32, outputValue: I64, timestamp: I64)

  function SignedPayload(version: Byte, r: Reveal, feedId: Bytes32): (p: Payload)
    ensures p.Valid()
  {
    Payload(r.scriptHash, r.paramsHash, r.outputValue, r.timestamp, feedId, version)
  }

  // For every schema version the contract signs the very bytes the bridge packs.
  method BuildPayload(version: Byte, r: Reveal, feedId: Bytes32) returns (msg: seq<Byte>)
    ensures SignedPayload(version, r, feedId).ToBytes() == Ok(msg)
  {
    msg := [version];
    msg := msg + r.scriptHash;
    msg := msg + r.paramsHash;
    msg := PushAll(msg, ToBeBytes(r.outputValue));
    msg := PushAll(msg, ToBeBytes(r.timestamp));
    msg := msg + feedId;
    ToBeBytesIsI64Bytes(r.outputValue);
    ToBeBytesIsI64Bytes(r.timestamp);
  }

  function CommitmentPayload(r: Reveal, feedId: Bytes32, salt: Bytes32): seq<Byte>
  {
    r.scriptHash + r.paramsHash + I64Bytes(r.outputValue) + I64Bytes(r.timestamp) + feedId + salt
  }

  method BuildCommitmentPayload(r: Reveal, feedId: Bytes32, salt: Bytes32) returns (msg: seq<Byte>)
    ensures msg == CommitmentPayload(r, feedId, salt)
  {
    msg := r.scriptHash;
    msg := msg + r.paramsHash;
    msg := PushAll(msg, ToBeBytes(r.outputValue));
    msg := PushAll(msg, ToBeBytes(r.timestamp));
    msg := msg + feedId;
    msg := msg + salt;
    ToBeBytesIsI64Bytes(r.outputValue);
    ToBeBytesIsI64Bytes(r.timestamp);
  }

  // One commitment binds one feed, one set of values and one salt.
  lemma CommitmentBinds(r: Reveal, feedId: Bytes32, salt: Bytes32, r': Reveal, feedId': Bytes32, salt': Bytes32)
    requires CommitmentPayload(r, feedId, salt) == CommitmentPayload(r', feedId', salt')
    ensures r == r' && feedId == feedId' && salt == salt'
  {
    var m, m' := CommitmentPayload(r, feedId, salt), CommitmentPayload(r', feedId', salt');
    assert r.scriptHash == m[..32] && r'.scriptHash == m'[..32];
    assert r.paramsHash == m[32..64] && r'.paramsHash == m'[32..64];
    assert I64Bytes(r.outputValue) == m[64..72] && I64Bytes(r'.outputValue) == m'[64..72];
    assert I64Bytes(r.timestamp) == m[72..80] && I64Bytes(r'.timestamp) == m'[72..80];
    assert feedId == m[80..112] && feedId' == m'[80..112];
    assert salt == m[112..] && salt' == m'[112..];
    I64RoundTrip(r.outputValue);
    I64RoundTrip(r'.outputValue);
    I64RoundTrip(r.timestamp);
    I64RoundTrip(r'.timestamp);
  }

  // ---------------------------------------------------------------- the bridge's commit and reveal

  /** A computed result: the script's hash, the hash of its canonical parameters, and an unpadded feed id. */
  datatype GeeResult = GeeResult(
    scriptHash: seq<Byte>,
    paramsHash: Bytes32,
    outputValue: int,
    timestamp: int,
    feedId: seq<Byte>)

  function PadFeedId(raw: seq<Byte>): Result<seq<Byte>, AttestationError> {
    if |raw| > 32 then Err(BadFeedId) else Ok(raw + seq(32 - |raw|, _ => 0))
  }

  // A feed id of up to 32 bytes is filled up with zeros.
  lemma PadsExactly(raw: seq<Byte>)
    ensures PadFeedId(raw).Ok? <==> |raw| <= 32
    ensures PadFeedId(raw).Ok? ==>
              var p := PadFeedId(raw).value;
              |p| == 32 && raw <= p && forall i :: |raw| <= i < 32 ==> p[i] == 0
  {
  }

  /** int.to_bytes(8, 'big', signed=True). */
  function SignedBytes(v: int, error: AttestationError): Result<seq<Byte>, AttestationError> {
    if InI64(v) then Ok(I64Bytes(v)) else Err(error)
  }

  /** The digest the bridge commits to, or why it cannot. */
  function CommittedDigest(result: GeeResult, salt: Bytes32): Result<Digest, AttestationError> {
    var feedId :- PadFeedId(result.feedId);
    var value :- SignedBytes(result.outputValue, OutputOutOfRange);
    var stamp :- SignedBytes(result.timestamp, TimestampOutOfRange);
    Ok(Digest(result.scriptHash + result.paramsHash + value + stamp + feedId + salt))
  }

  method BridgeCommit(result: GeeResult, salt: Bytes32) returns (r: Result<Digest, AttestationError>)
    ensures r == CommittedDigest(result, salt)
    ensures r.Ok? <==> |result.feedId| <= 32 && InI64(result.outputValue) && InI64(result.timestamp)
  {
    var feedId :- PadFeedId(result.feedId);
    var payload: seq<Byte> := [];
    payload := payload + result.scriptHash;
    payload := payload + result.paramsHash;
    var value :- SignedBytes(result.outputValue, OutputOutOfRange);
    payload := payload + value;
    var stamp :- SignedBytes(result.timestamp, TimestampOutOfRange);
    payload := payload + stamp;
    payload := payload + feedId;
    payload := payload + salt;
    assert payload == result.scriptHash + result.paramsHash + value + stamp + feedId + salt;
    return Ok(Digest(payload));
  }

  function BridgeReveal(result: GeeResult): Result<Payload, AttestationError> {
    var feedId :- PadFeedId(result.feedId);
    Payload(result.scriptHash, result.paramsHash, result.outputValue, result.timestamp, feedId,
        SCHEMA_VERSION).Checked()
  }

  function RevealOf(p: Payload): Reveal
    requires p.Valid()
  {
    Reveal(p.scriptHash, p.paramsHash, p.outputValue, p.timestamp)
  }

  // The bridge can reveal exactly what fits the contract's fields.
  lemma RevealsExactly(result: GeeResult)
    ensures var r := BridgeReveal(result);
            && (r.Ok? <==> |result.scriptHash| == 32 && |result.feedId| <= 32
                           && InI64(result.outputValue) && InI64(result.timestamp))
            && (r.Ok? ==>
                  var p := r.value;
                  && p.Valid() && p.schemaVersion == 1 && PadFeedId(result.feedId) == Ok(p.feedId)
                  && RevealOf(p) == Reveal(result.scriptHash, result.paramsHash, result.outputValue, result.timestamp))
  {
    if |result.feedId| <= 32 {
      PadsExactly(result.feedId);
    }
  }

  // Committing works whenever revealing does, and both encode the same values.
  lemma CommitMatchesReveal(result: GeeResult, salt: Bytes32)
    requires BridgeReveal(result).Ok?
    ensures var p := BridgeReveal(result).value;
            && p.Valid() && PadFeedId(result.feedId) == Ok(p.feedId)
            && CommittedDigest(result, salt) == Ok(Digest(CommitmentPayload(RevealOf(p), p.feedId, salt)))
  {
  }
}
