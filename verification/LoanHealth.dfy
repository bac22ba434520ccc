/** When a loan can be liquidated: at its opening ledger, at every later one, and what the view reports. */
module LoanHealth {
  import opened Base
  import opened LivestockLoans
  import opened LoanLock
  import opened LoanInterest

  // ---------------------------------------------------------------- the health factor as an inequality

  lemma QuotientBelow(x: nat, y: nat, k: nat)
    requires y > 0
    ensures x / y < k <==> x < k * y
  {
    var q := x / y;
    assert q * y <= x < q * y + y;
    if q < k {
      MulMonotone(q + 1, k, y);
    } else {
      MulMonotone(k, q, y);
    }
  }

  function Weighted(cfg: Config, value: nat): nat
    requires cfg.liquidationThresholdBps >= 0
  {
    assert value * cfg.liquidationThresholdBps >= 0;
    value * cfg.liquidationThresholdBps * 100
  }

  lemma HealthIsQuotient(cfg: Config, value: nat, balance: nat)
    requires cfg.liquidationThresholdBps >= 0 && balance > 0
    requires HealthOf(cfg, value, balance).Ok?
    ensures HealthOf(cfg, value, balance).value == Weighted(cfg, value) / (balance * 10_000)
  {
  }

  // Below 120 means the weighted collateral does not reach 1.2 times the debt.
  lemma HealthBelow(cfg: Config, value: nat, balance: nat, k: nat)
    requires cfg.liquidationThresholdBps >= 0 && balance > 0
    requires HealthOf(cfg, value, balance).Ok?
    ensures HealthOf(cfg, value, balance).value < k
            <==> Weighted(cfg, value) < k * (balance * 10_000)
  {
    HealthIsQuotient(cfg, value, balance);
    QuotientBelow(Weighted(cfg, value), balance * 10_000, k);
  }

  // ---------------------------------------------------------------- the opening ledger

  /** A principal the LTV check accepts for collateral of this value. */
  predicate Lends(cfg: Config, value: nat, principal: nat) {
    principal >= 1 && principal <= TruncDiv(value * cfg.collateralRatioBps, 10_000)
  }

  lemma LendsWithinRatio(cfg: Config, value: nat, principal: nat)
    requires ValidConfig(cfg) && Lends(cfg, value, principal)
    ensures principal * 10_000 <= value * cfg.collateralRatioBps
  {
    assert value * cfg.collateralRatioBps >= 0;
  }

  lemma ScaledCover(value: nat, ratio: nat, threshold: nat, principal: nat, k: nat)
    requires principal * 10_000 <= value * ratio
    requires ratio * k <= threshold * 100
    ensures k * (principal * 10_000) <= value * threshold * 100
  {
    MulMonotone(principal * 10_000, value * ratio, k);
    MulMonotone(ratio * k, threshold * 100, value);
    assert k * (principal * 10_000) == principal * 10_000 * k;
    assert value * ratio * k == ratio * k * value;
    assert threshold * 100 * value == value * threshold * 100;
  }

  // The configuration check alone keeps a fee-free loan at a health factor of at least 100 when it opens.
  lemma OpensAtHundred(cfg: Config, value: nat, principal: nat)
    requires ValidConfig(cfg) && Lends(cfg, value, principal) && HealthOf(cfg, value, principal).Ok?
    ensures HealthOf(cfg, value, principal).value >= 100
  {
    LendsWithinRatio(cfg, value, principal);
    ScaledCover(value, cfg.collateralRatioBps, cfg.liquidationThresholdBps, principal, 100);
    HealthBelow(cfg, value, principal, 100);
  }

  /** No fee-free loan can be liquidated in the ledger that opens it. */
  ghost predicate SafeOpenings(cfg: Config) {
    forall value: nat, principal: nat ::
      Lends(cfg, value, principal) && HealthOf(cfg, value, principal).Ok? ==>
          HealthOf(cfg, value, principal).value >= 120
  }

  // Safe openings need a threshold of at least 1.2 times the collateral ratio, and that is enough.
  lemma SafeOpeningsExactly(cfg: Config)
    requires ValidConfig(cfg)
    ensures SafeOpenings(cfg) <==> cfg.liquidationThresholdBps * 10 >= cfg.collateralRatioBps * 12
  {
    if cfg.liquidationThresholdBps * 10 >= cfg.collateralRatioBps * 12 {
      forall value: nat, principal: nat | Lends(cfg, value, principal) && HealthOf(cfg, value, principal).Ok?
        ensures HealthOf(cfg, value, principal).value >= 120
      {
        LendsWithinRatio(cfg, value, principal);
        ScaledCover(value, cfg.collateralRatioBps, cfg.liquidationThresholdBps, principal, 120);
        HealthBelow(cfg, value, principal, 120);
      }
    } else {
      var ratio := cfg.collateralRatioBps;
      assert TruncDiv(10_000 * ratio, 10_000) == ratio;
      assert Lends(cfg, 10_000, ratio) && HealthOf(cfg, 10_000, ratio).Ok?;
      HealthBelow(cfg, 10_000, ratio, 120);
    }
  }

  // At the contract: a fee-free loan opened under such a configuration survives its opening ledger.
  lemma FreshLoanIsSafe(s: Kraal, signers: set<Address>, now: U32, borrower: Address, asset: AssetId, principal: nat,
                        liquidators: set<Address>, liquidator: Address)
    requires s.config.Some? && ValidConfig(s.config.value)
    requires s.config.value.creationFee == 0 && s.config.value.interestRateBps >= 0
    requires s.config.value.liquidationThresholdBps * 10 >= s.config.value.collateralRatioBps * 12
    requires asset in s.assets && s.assets[asset].appraisedValue >= 0 && principal >= 1
    requires s.OpenLoan(signers, now, borrower, asset, principal).Ok?
    ensures var (t, id) := s.OpenLoan(signers, now, borrower, asset, principal).value;
            t.Liquidate(liquidators, now, liquidator, id).Err?
  {
    var cfg, value := s.config.value, s.assets[asset].appraisedValue;
    var (t, id) := s.OpenLoan(signers, now, borrower, asset, principal).value;
    assert Lends(cfg, value, principal);
    SafeOpeningsExactly(cfg);
    assert HealthOf(cfg, value, principal).Ok? ==> HealthOf(cfg, value, principal).value >= 120;
    assert t.loans[id].balance == principal;
  }

  // ---------------------------------------------------------------- once liquidatable, always liquidatable

  /** The debt at ledger `at`, interest included, is beyond what the collateral covers. */
  ghost predicate Underwater(s: Kraal, id: LoanId, at: U32) {
    && OwedLoan(s, id) && s.loans[id].updatedAt <= at
    && s.config.value.liquidationThresholdBps >= 0
    && s.loans[id].assetId in s.assets && s.assets[s.loans[id].assetId].appraisedValue >= 0
    && var loan, cfg := s.loans[id], s.config.value;
       Weighted(cfg, s.assets[loan.assetId].appraisedValue)
       < 120 * (Grown(loan.balance, cfg.interestRateBps, at - loan.updatedAt) * 10_000)
  }

  lemma UnderwaterPersists(s: Kraal, id: LoanId, at: U32, later: U32)
    requires Underwater(s, id, at) && at <= later
    ensures Underwater(s, id, later)
  {
    var loan, cfg := s.loans[id], s.config.value;
    GrownMonotone(loan.balance, loan.balance, cfg.interestRateBps, at - loan.updatedAt, later - loan.updatedAt);
  }

  /** None of the products and sums on the way to the health factor leaves the i128 range. */
  predicate HealthFits(cfg: Config, value: int, balance: int, ledgers: int) {
    && InI128(balance * cfg.interestRateBps) && InI128(balance * cfg.interestRateBps * ledgers)
    && var due := balance + TruncDiv(balance * cfg.interestRateBps * ledgers, RATE_UNIT);
       && InI128(due) && InI128(due * 10_000)
       && InI128(value * cfg.liquidationThresholdBps) && InI128(value * cfg.liquidationThresholdBps * 100)
  }

  /** Nor do those of the seizure. */
  predicate SeizureFits(cfg: Config, balance: int, ledgers: int) {
    var due := balance + TruncDiv(balance * cfg.interestRateBps * ledgers, RATE_UNIT);
    InI128(10_000 + cfg.liquidationBonusBps) && InI128(due * (10_000 + cfg.liquidationBonusBps))
  }

  lemma HealthFitsExactly(cfg: Config, value: nat, balance: nat, ledgers: nat)
    requires balance > 0 && cfg.interestRateBps >= 0
    ensures var due := Accrue(balance, cfg.interestRateBps, ledgers);
            && (HealthFits(cfg, value, balance, ledgers) <==> due.Ok? && HealthOf(cfg, value, due.value).Ok?)
            && (due.Ok? ==> due.value > 0
                            && due.value == balance + TruncDiv(balance * cfg.interestRateBps * ledgers, RATE_UNIT))
            && (due.Err? ==> due == Err(ArithmeticError))
            && (due.Ok? ==>
                HealthOf(cfg, value, due.value).Ok? || HealthOf(cfg, value, due.value) == Err(ArithmeticError))
            && (due.Ok? ==> (SeizureFits(cfg, balance, ledgers) <==> Seizure(cfg, due.value).Ok?)
                            && (Seizure(cfg, due.value).Err? ==> Seizure(cfg, due.value) == Err(ArithmeticError)))
  {
    if Accrue(balance, cfg.interestRateBps, ledgers).Ok? {
      AccrueIsGrown(balance, cfg.interestRateBps, ledgers);
    }
  }

  // Every outcome of liquidate, exactly: it succeeds on an underwater loan, refuses any other, and traps when a
  // product on its way overflows.
  lemma LiquidatableIsUnderwater(s: Kraal, signers: set<Address>, now: U32, liquidator: Address, id: LoanId)
    requires OwedLoan(s, id) && s.loans[id].updatedAt <= now && liquidator in signers
    requires s.config.value.liquidationThresholdBps >= 0
    requires s.loans[id].assetId in s.assets && s.assets[s.loans[id].assetId].appraisedValue >= 0
    ensures var r, cfg, loan := s.Liquidate(signers, now, liquidator, id), s.config.value, s.loans[id];
            var value, ledgers := s.assets[loan.assetId].appraisedValue, now - loan.updatedAt;
            && (r.Ok? <==> Underwater(s, id, now) && HealthFits(cfg, value, loan.balance, ledgers)
                           && SeizureFits(cfg, loan.balance, ledgers))
            && (r == Err(HealthFactorSafe)
                <==> !Underwater(s, id, now) && HealthFits(cfg, value, loan.balance, ledgers))
            && (r.Err? ==> r == Err(HealthFactorSafe) || r == Err(ArithmeticError))
  {
    var loan, cfg := s.loans[id], s.config.value;
    var value, ledgers := s.assets[loan.assetId].appraisedValue, now - loan.updatedAt;
    HealthFitsExactly(cfg, value, loan.balance, ledgers);
    var due := Accrue(loan.balance, cfg.interestRateBps, ledgers);
    if due.Ok? {
      AccrueIsGrown(loan.balance, cfg.interestRateBps, ledgers);
      if HealthOf(cfg, value, due.value).Ok? {
        HealthBelow(cfg, value, due.value, 120);
      }
    }
  }

  /** The ledger a call runs in; calls that never read the ledger run at any time. */
  function LedgerOf(call: Call, at: U32): U32 {
    match call
    case RegisterAsset(_, now, _, _, _, _) => now
    case OpenLoan(_, now, _, _, _) => now
    case RepayLoan(_, now, _, _, _) => now
    case Liquidate(_, now, _, _) => now
    case _ => at
  }

  /** Ledgers never go backwards, and nothing positive is repaid on the loan. */
  ghost predicate Unpaid(calls: seq<Call>, id: LoanId, at: U32)
    decreases |calls|
  {
    calls != [] ==>
      && at <= LedgerOf(calls[0], at)
      && (calls[0].RepayLoan? && calls[0].loanId == id ==> calls[0].repayment <= 0)
      && Unpaid(calls[1..], id, LedgerOf(calls[0], at))
  }

  function Clock(calls: seq<Call>, at: U32): U32
    decreases |calls|
  {
    if calls == [] then at else Clock(calls[1..], LedgerOf(calls[0], at))
  }

  lemma UnderwaterElsewhere(s: Kraal, t: Kraal, id: LoanId, at: U32)
    requires Underwater(s, id, at) && t.config == s.config
    requires id in t.loans && t.loans[id] == s.loans[id]
    requires s.loans[id].assetId in t.assets
    requires t.assets[s.loans[id].assetId].appraisedValue == s.assets[s.loans[id].assetId].appraisedValue
    ensures Underwater(t, id, at)
  {
  }

  lemma UnpaidStaysUnderwater(s: Kraal, signers: set<Address>, now: U32, caller: Address, id: LoanId, repayment: int)
    requires Underwater(s, id, now) && repayment <= 0 && s.RepayLoan(signers, now, caller, id, repayment).Ok?
    ensures Underwater(s.RepayLoan(signers, now, caller, id, repayment).value.0, id, now)
  {
    var loan, rate := s.loans[id], s.config.value.interestRateBps;
    AccrueIsGrown(loan.balance, rate, now - loan.updatedAt);
    SettleUnpaid(s, id, now, Grown(loan.balance, rate, now - loan.updatedAt), repayment);
  }

  lemma UnderwaterStep(s: Kraal, call: Call, id: LoanId, at: U32)
    requires Locked(s) && Admissible(s, call) && Underwater(s, id, at) && at <= LedgerOf(call, at)
    requires call.RepayLoan? && call.loanId == id ==> call.repayment <= 0
    ensures var t := Apply(s, call);
            id in t.loans && (t.loans[id].active ==> Underwater(t, id, LedgerOf(call, at)))
  {
    var t, now, asset := Apply(s, call), LedgerOf(call, at), s.loans[id].assetId;
    UnderwaterPersists(s, id, at, now);
    assert Names(s, id, asset) && OnLoan(s, asset);
    if t != s {
      if call.RepayLoan? && call.loanId == id {
        UnpaidStaysUnderwater(s, call.signers, now, call.caller, id, call.repayment);
      } else if !(call.Liquidate? && call.loanId == id) {
        if call.OpenLoan? {
          NewLoanIsFresh(s, now, call.assetId);
        }
        UnderwaterElsewhere(s, t, id, now);
      }
    }
  }

  /** The liquidation goes through, unless one of its products leaves the i128 range. */
  ghost predicate Seizes(s: Kraal, signers: set<Address>, now: U32, liquidator: Address, id: LoanId) {
    && OwedLoan(s, id) && s.loans[id].assetId in s.assets && s.loans[id].updatedAt <= now
    && var r, cfg, loan := s.Liquidate(signers, now, liquidator, id), s.config.value, s.loans[id];
       var value, ledgers := s.assets[loan.assetId].appraisedValue, now - loan.updatedAt;
       && (r.Ok? <==> HealthFits(cfg, value, loan.balance, ledgers) && SeizureFits(cfg, loan.balance, ledgers))
       && (r.Err? ==> r == Err(ArithmeticError))
  }

  // Once a loan can be liquidated it stays so through any run without a positive repayment on it.
  lemma {:induction false} LiquidatableForever(s: Kraal, calls: seq<Call>, id: LoanId, at: U32)
    requires Locked(s) && AdmissibleRun(s, calls) && Unpaid(calls, id, at)
    requires Underwater(s, id, at)
    ensures var t := Run(s, calls);
            && id in t.loans
            && (t.loans[id].active ==>
                  forall signers, now: U32, liquidator | liquidator in signers && Clock(calls, at) <= now ::
                    Seizes(t, signers, now, liquidator, id))
    decreases |calls|
  {
    if calls == [] {
      forall signers, now: U32, liquidator | liquidator in signers && at <= now
        ensures Seizes(s, signers, now, liquidator, id)
      {
        UnderwaterPersists(s, id, at, now);
        LiquidatableIsUnderwater(s, signers, now, liquidator, id);
      }
    } else {
      var t := Apply(s, calls[0]);
      UnderwaterStep(s, calls[0], id, at);
      LockedStep(s, calls[0]);
      if t.loans[id].active {
        LiquidatableForever(t, calls[1..], id, LedgerOf(calls[0], at));
      } else {
        EveryRunIsLocked(t, calls[1..]);
      }
    }
  }

  // ---------------------------------------------------------------- the view

  lemma QuotientFalls(x: nat, y: nat, z: nat)
    requires 0 < y <= z
    ensures x / z <= x / y
  {
    QuotientBelow(x, y, x / y + 1);
    MulMonotone(y, z, x / y + 1);
    assert (x / y + 1) * z == z * (x / y + 1) && (x / y + 1) * y == y * (x / y + 1);
    QuotientBelow(x, z, x / y + 1);
  }

  lemma HealthFalls(cfg: Config, value: nat, balance: nat, due: nat)
    requires cfg.liquidationThresholdBps >= 0 && 0 < balance <= due
    requires HealthOf(cfg, value, balance).Ok? && HealthOf(cfg, value, due).Ok?
    ensures HealthOf(cfg, value, due).value <= HealthOf(cfg, value, balance).value
  {
    HealthIsQuotient(cfg, value, balance);
    HealthIsQuotient(cfg, value, due);
    QuotientFalls(Weighted(cfg, value), balance * 10_000, due * 10_000);
  }

  lemma DebtGrows(balance: nat, rate: nat, n: nat)
    requires Accrue(balance, rate, n).Ok?
    ensures Accrue(balance, rate, n).value >= balance
  {
    AccrueIsGrown(balance, rate, n);
  }

  // health_factor ignores interest since the last touch, so it never reports less than liquidate computes.
  lemma ViewNeverUnderstates(s: Kraal, now: U32, id: LoanId, due: int)
    requires OwedLoan(s, id) && s.config.value.liquidationThresholdBps >= 0
    requires Accrue(s.loans[id].balance, s.config.value.interestRateBps, Elapsed(now, s.loans[id].updatedAt)) == Ok(due)
    requires s.loans[id].assetId in s.assets && s.assets[s.loans[id].assetId].appraisedValue >= 0
    requires s.Health(due, s.loans[id].assetId).Ok? && s.HealthFactor(id).Ok?
    ensures s.Health(due, s.loans[id].assetId).value <= s.HealthFactor(id).value
  {
    DebtGrows(s.loans[id].balance, s.config.value.interestRateBps, Elapsed(now, s.loans[id].updatedAt));
    HealthFalls(s.config.value, s.assets[s.loans[id].assetId].appraisedValue, s.loans[id].balance, due);
  }
}
