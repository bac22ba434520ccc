/** Loans against registered animals: contracts/stellarkraal. */
module LivestockLoans {
  import opened Base
  import opened Bytes

  type AssetId = Digest
  type LoanId = OuterDigest

  /** An asset is named after the ledger it is registered in, and nothing else. */
  function AssetOf(now: U32): AssetId {
    Digest(BigEndian(now, 4))
  }

  datatype Config = Config(
    admin: Address,
    collateralRatioBps: int,
    liquidationThresholdBps: int,
    liquidationBonusBps: int,
    interestRateBps: int,
    creationFee: int)

  datatype Asset = Asset(owner: Address, animalType: string, tagId: string, appraisedValue: int, onLoan: bool)

  datatype Loan = Loan(
    borrower: Address,
    assetId: AssetId,
    principal: int,
    balance: int,
    openedAt: U32,
    updatedAt: U32,
    active: bool)

  datatype LoanError =
    | AlreadyInitialized
    | NotInitialized
    | AssetNotFound
    | LoanNotFound
    | AssetAlreadyOnLoan
    | PrincipalExceedsLtv
    | LoanNotActive
    | HealthFactorSafe
    | ArithmeticError
    | InvalidConfig
    | HostTrap // a failed `require_auth`

  // ---------------------------------------------------------------- arithmetic

  const LEDGERS_PER_YEAR := 6_307_200

  /** The denominator of one ledger's interest in basis points. */
  const RATE_UNIT := 10_000 * LEDGERS_PER_YEAR

  function Checked(x: int): Result<int, LoanError> {
    if InI128(x) then Ok(x) else Err(ArithmeticError)
  }

  function Accrue(balance: int, rateBps: int, ledgers: int): Result<int, LoanError> {
    var perLedger :- Checked(balance * rateBps);
    var raw :- Checked(perLedger * ledgers);
    Checked(balance + TruncDiv(raw, RATE_UNIT))
  }

  /** Ledgers since the last touch; `saturating_sub` on u32. */
  function Elapsed(now: U32, updatedAt: U32): nat {
    if now >= updatedAt then now - updatedAt else 0
  }

  function MaxPrincipal(cfg: Config, appraisedValue: int): Result<int, LoanError> {
    var scaled :- Checked(appraisedValue * cfg.collateralRatioBps);
    Ok(TruncDiv(scaled, 10_000))
  }

  /** 100 times collateral value at the liquidation threshold over the balance. */
  function HealthOf(cfg: Config, appraisedValue: int, balance: int): Result<int, LoanError> {
    if balance == 0 then Ok(I128_MAX)
    else
      var weighted :- Checked(appraisedValue * cfg.liquidationThresholdBps);
      var numerator :- Checked(weighted * 100);
      var denominator :- Checked(balance * 10_000);
      Ok(TruncDiv(numerator, denominator))
  }

  function Seizure(cfg: Config, balance: int): Result<int, LoanError> {
    var factor :- Checked(10_000 + cfg.liquidationBonusBps);
    var scaled :- Checked(balance * factor);
    Ok(TruncDiv(scaled, 10_000))
  }

  /** The 44 bytes hashed into a loan id. */
  function Seed(now: U32, asset: AssetId, nonce: nat): (seed: seq<Symbol>)
    ensures |seed| == 44
  {
    Octets(BigEndian(now, 4)) + Parts(asset) + Octets(BigEndian(nonce, 8))
  }

  // ---------------------------------------------------------------- the contract's calls

  type Outcome<T> = Result<(Kraal, T), LoanError>

  const EMPTY := Kraal(None, map[], map[], 0)

  predicate ValidConfig(cfg: Config) {
    && 0 < cfg.collateralRatioBps <= 10_000
    && cfg.collateralRatioBps < cfg.liquidationThresholdBps <= 10_000
  }

  datatype Kraal = Kraal(config: Option<Config>, assets: map<AssetId, Asset>, loans: map<LoanId, Loan>, nonce: nat) {
    function Initialize(signers: set<Address>, cfg: Config): Outcome<()> {
      if config.Some? then Err(AlreadyInitialized)
      else if !ValidConfig(cfg) then Err(InvalidConfig)
      else if cfg.admin !in signers then Err(HostTrap)
      else Ok((this.(config := Some(cfg)), ()))
    }

    /** A record already stored under the ledger's id is replaced. */
    function RegisterAsset(signers: set<Address>, now: U32, owner: Address, animalType: string, tagId: string,
                           value: int)
      : Outcome<AssetId>
    {
      if config.None? then Err(NotInitialized)
      else if owner !in signers then Err(HostTrap)
      else Ok((this.(assets := assets[AssetOf(now) := Asset(owner, animalType, tagId, value, false)]), AssetOf(now)))
    }

    function OpenLoan(signers: set<Address>, now: U32, borrower: Address, assetId: AssetId, principal: int)
      : Outcome<LoanId>
    {
      if config.None? then Err(NotInitialized)
      else if borrower !in signers then Err(HostTrap)
      else if assetId !in assets then Err(AssetNotFound)
      else if assets[assetId].onLoan then Err(AssetAlreadyOnLoan)
      else
        var limit :- MaxPrincipal(config.value, assets[assetId].appraisedValue);
        if principal > limit then Err(PrincipalExceedsLtv)
        else
          var balance :- Checked(principal + config.value.creationFee);
          if nonce >= U64_MAX then Err(ArithmeticError)
          else
            var id := OuterDigest(Seed(now, assetId, nonce + 1));
            Ok((this.(assets := assets[assetId := assets[assetId].(onLoan := true)],
                      nonce := nonce + 1,
                      loans := loans[id := Loan(borrower, assetId, principal, balance, now, now, true)]), id))
    }

    /** Close the loan and release its collateral. */
    function Close(id: LoanId, now: U32): Result<Kraal, LoanError>
      requires id in loans
    {
      var loan := loans[id];
      if loan.assetId !in assets then Err(AssetNotFound)
      else Ok(this.(assets := assets[loan.assetId := assets[loan.assetId].(onLoan := false)],
                    loans := loans[id := loan.(balance := 0, active := false, updatedAt := now)]))
    }

    function RepayLoan(signers: set<Address>, now: U32, caller: Address, id: LoanId, repayment: int): Outcome<int> {
      if config.None? then Err(NotInitialized)
      else if caller !in signers then Err(HostTrap)
      else if id !in loans then Err(LoanNotFound)
      else if !loans[id].active then Err(LoanNotActive)
      else
        var loan := loans[id];
        var due :- Accrue(loan.balance, config.value.interestRateBps, Elapsed(now, loan.updatedAt));
        Settle(id, now, due, repayment)
    }

    /** A repayment against the debt with interest included: the loan shrinks or closes. */
    function Settle(id: LoanId, now: U32, due: int, repayment: int): Outcome<int>
      requires id in loans
    {
      var rest := SaturatingSub(due, repayment);
      if rest == 0 || repayment >= due then
        var closed :- Close(id, now);
        Ok((closed, 0))
      else
        Ok((this.(loans := loans[id := loans[id].(balance := rest, updatedAt := now)]), rest))
    }

    function Liquidate(signers: set<Address>, now: U32, liquidator: Address, id: LoanId): Outcome<int> {
      if config.None? then Err(NotInitialized)
      else if liquidator !in signers then Err(HostTrap)
      else if id !in loans then Err(LoanNotFound)
      else if !loans[id].active then Err(LoanNotActive)
      else
        var loan := loans[id];
        var due :- Accrue(loan.balance, config.value.interestRateBps, Elapsed(now, loan.updatedAt));
        var health :- Health(due, loan.assetId);
        if health >= 120 then Err(HealthFactorSafe)
        else
          var seized :- Seizure(config.value, due);
          var closed :- Close(id, now);
          Ok((closed, seized))
    }

    function Health(balance: int, assetId: AssetId): Result<int, LoanError>
      requires config.Some?
    {
      if balance == 0 then Ok(I128_MAX)
      else if assetId !in assets then Err(AssetNotFound)
      else HealthOf(config.value, assets[assetId].appraisedValue, balance)
    }

    /** The public view: the stored balance, without the interest since the last touch. */
    function HealthFactor(id: LoanId): Result<int, LoanError> {
      if config.None? then Err(NotInitialized)
      else if id !in loans then Err(LoanNotFound)
      else Health(loans[id].balance, loans[id].assetId)
    }
  }

  /** The contract over its mutable storage. */
  class KraalContract {
    var config: Option<Config>
    var assets: map<AssetId, Asset>
    var loans: map<LoanId, Loan>
    var nonce: nat

    ghost function State(): Kraal
      reads this
    {
      Kraal(config, assets, loans, nonce)
    }

    constructor ()
      ensures State() == EMPTY
    {
      config, assets, loans, nonce := None, map[], map[], 0;
    }

    method Initialize(signers: set<Address>, cfg: Config) returns (r: Result<(), LoanError>)
      modifies this
      ensures Committed(old(State()), State(), r, old(State()).Initialize(signers, cfg))
    {
      if config.Some? {
        return Err(AlreadyInitialized);
      }
      if cfg.collateralRatioBps <= 0 || cfg.collateralRatioBps > 10_000 {
        return Err(InvalidConfig);
      }
      if cfg.liquidationThresholdBps <= cfg.collateralRatioBps || cfg.liquidationThresholdBps > 10_000 {
        return Err(InvalidConfig);
      }
      if cfg.admin !in signers {
        return Err(HostTrap);
      }
      config := Some(cfg);
      return Ok(());
    }

    method RegisterAsset(signers: set<Address>, now: U32, owner: Address, animalType: string, tagId: string, value: int)
      returns (r: Result<AssetId, LoanError>)
      modifies this
      ensures Committed(old(State()), State(), r,
                        old(State()).RegisterAsset(signers, now, owner, animalType, tagId, value))
    {
      if config.None? {
        return Err(NotInitialized);
      }
      if owner !in signers {
        return Err(HostTrap);
      }
      var id := Digest(BigEndian(now, 4));
      assets := assets[id := Asset(owner, animalType, tagId, value, false)];
      return Ok(id);
    }

    method OpenLoan(signers: set<Address>, now: U32, borrower: Address, assetId: AssetId, principal: int)
      returns (r: Result<LoanId, LoanError>)
      modifies this
      ensures Committed(old(State()), State(), r, old(State()).OpenLoan(signers, now, borrower, assetId, principal))
    {
      if config.None? {
        return Err(NotInitialized);
      }
      if borrower !in signers {
        return Err(HostTrap);
      }
      if assetId !in assets {
        return Err(AssetNotFound);
      }
      var asset := assets[assetId];
      if asset.onLoan {
        return Err(AssetAlreadyOnLoan);
      }
      var limit :- MaxPrincipal(config.value, asset.appraisedValue);
      if principal > limit {
        return Err(PrincipalExceedsLtv);
      }
      var balance :- Checked(principal + config.value.creationFee);
      if nonce >= U64_MAX {
        return Err(ArithmeticError);
      }
      var next := nonce + 1;
      var seed := Octets(BigEndian(now, 4));
      seed := seed + Parts(assetId);
      seed := seed + Octets(BigEndian(next, 8));
      var id := OuterDigest(seed);
      assets := assets[assetId := asset.(onLoan := true)];
      nonce := next;
      loans := loans[id := Loan(borrower, assetId, principal, balance, now, now, true)];
      return Ok(id);
    }

    method RepayLoan(signers: set<Address>, now: U32, caller: Address, id: LoanId, repayment: int)
      returns (r: Result<int, LoanError>)
      modifies this
      ensures Committed(old(State()), State(), r, old(State()).RepayLoan(signers, now, caller, id, repayment))
    {
      if config.None? {
        return Err(NotInitialized);
      }
      if caller !in signers {
        return Err(HostTrap);
      }
      if id !in loans {
        return Err(LoanNotFound);
      }
      var loan := loans[id];
      if !loan.active {
        return Err(LoanNotActive);
      }
      var due :- Accrue(loan.balance, config.value.interestRateBps, Elapsed(now, loan.updatedAt));
      loan := loan.(balance := due, updatedAt := now);
      var rest := SaturatingSub(loan.balance, repayment);
      if rest == 0 || repayment >= loan.balance {
        loan := loan.(balance := 0, active := false);
        if loan.assetId !in assets {
          return Err(AssetNotFound);
        }
        var asset := assets[loan.assetId];
        assets := assets[loan.assetId := asset.(onLoan := false)];
      } else {
        loan := loan.(balance := rest);
      }
      loans := loans[id := loan];
      return Ok(loan.balance);
    }

    method Liquidate(signers: set<Address>, now: U32, liquidator: Address, id: LoanId)
      returns (r: Result<int, LoanError>)
      modifies this
      ensures Committed(old(State()), State(), r, old(State()).Liquidate(signers, now, liquidator, id))
    {
      if config.None? {
        return Err(NotInitialized);
      }
      if liquidator !in signers {
        return Err(HostTrap);
      }
      if id !in loans {
        return Err(LoanNotFound);
      }
      var loan := loans[id];
      if !loan.active {
        return Err(LoanNotActive);
      }
      var due :- Accrue(loan.balance, config.value.interestRateBps, Elapsed(now, loan.updatedAt));
      if due != 0 && loan.assetId !in assets {
        return Err(AssetNotFound);
      }
      var health :- if due == 0 then Ok(I128_MAX) else HealthOf(config.value, assets[loan.assetId].appraisedValue, due);
      if health >= 120 {
        return Err(HealthFactorSafe);
      }
      var seized :- Seizure(config.value, due);
      loan := loan.(active := false, balance := 0, updatedAt := now);
      if loan.assetId !in assets {
        return Err(AssetNotFound);
      }
      var asset := assets[loan.assetId];
      assets := assets[loan.assetId := asset.(onLoan := false)];
      loans := loans[id := loan];
      return Ok(seized);
    }
  }
}
