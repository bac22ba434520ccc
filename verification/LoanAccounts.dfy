/** What every call of the loan contract does to a debt, in plain arithmetic, and the account of a loan over any run. */
module LoanAccounts {
  import opened Base
  import opened Bytes
  import opened LivestockLoans
  import opened LoanLock

  // ---------------------------------------------------------------- one touch

  /** Ledgers a loan has gone untouched; a ledger before the last touch counts as none. */
  function Gap(now: U32, updatedAt: U32): nat {
    var n := now - updatedAt;
    if n <= 0 then 0 else n
  }

  /** Simple interest over 10_000 basis points and 6_307_200 ledgers a year, truncated toward zero. */
  function Interest(balance: int, rateBps: int, ledgers: nat): int {
    TruncDiv(balance * rateBps * ledgers, 63_072_000_000)
  }

  function Debt(s: Kraal, id: LoanId, now: U32): int
    requires s.config.Some? && id in s.loans
  {
    var loan := s.loans[id];
    loan.balance + Interest(loan.balance, s.config.value.interestRateBps, Gap(now, loan.updatedAt))
  }

  /** No product or sum on the way to the debt leaves the i128 range. */
  predicate DebtFits(s: Kraal, id: LoanId, now: U32)
    requires s.config.Some? && id in s.loans
  {
    var loan, rate := s.loans[id], s.config.value.interestRateBps;
    && InI128(loan.balance * rate) && InI128(loan.balance * rate * Gap(now, loan.updatedAt))
    && InI128(Debt(s, id, now))
  }

  lemma AccrualIsDebt(s: Kraal, id: LoanId, now: U32)
    requires s.config.Some? && id in s.loans
    ensures Accrue(s.loans[id].balance, s.config.value.interestRateBps, Elapsed(now, s.loans[id].updatedAt))
            == if DebtFits(s, id, now) then Ok(Debt(s, id, now)) else Err(ArithmeticError)
  {
  }

  /** Who may touch the loan, and what anybody else is told. */
  predicate Callable(s: Kraal, signers: set<Address>, who: Address, id: LoanId) {
    s.config.Some? && who in signers && id in s.loans && s.loans[id].active
  }

  ghost predicate Gated(r: Outcome<int>, s: Kraal, signers: set<Address>, who: Address, id: LoanId) {
    && (r == Err(NotInitialized) <==> s.config.None?)
    && (r == Err(HostTrap) <==> s.config.Some? && who !in signers)
    && (r == Err(LoanNotFound) <==> s.config.Some? && who in signers && id !in s.loans)
    && (r == Err(LoanNotActive) <==> s.config.Some? && who in signers && id in s.loans && !s.loans[id].active)
  }

  // ---------------------------------------------------------------- repayment

  /** The loan with another balance, and nothing else changed but the time of its last touch. */
  function WithBalance(s: Kraal, id: LoanId, balance: int, now: U32): Kraal
    requires id in s.loans
  {
    var loan := s.loans[id];
    s.(loans := s.loans[id := Loan(loan.borrower, loan.assetId, loan.principal, balance, loan.openedAt, now, true)])
  }

  /** The loan paid off and closed, its collateral free, and nothing else changed. */
  function PaidOff(s: Kraal, id: LoanId, now: U32): Kraal
    requires id in s.loans && s.loans[id].assetId in s.assets
  {
    var loan := s.loans[id];
    var asset := s.assets[loan.assetId];
    s.(loans := s.loans[id := Loan(loan.borrower, loan.assetId, loan.principal, 0, loan.openedAt, now, false)],
       assets := s.assets[loan.assetId :=
         Asset(asset.owner, asset.animalType, asset.tagId, asset.appraisedValue, false)])
  }

  // A repayment is credited in full: what is left is the debt less the repayment, and a repayment of the whole debt or
  // more closes the loan and frees its collateral. Only a negative repayment can run into the end of the range.
  lemma RepaymentExactly(s: Kraal, signers: set<Address>, now: U32, caller: Address, id: LoanId, repayment: I128)
    ensures var r := s.RepayLoan(signers, now, caller, id, repayment);
            && Gated(r, s, signers, caller, id)
            && (Callable(s, signers, caller, id) ==>
                  && (r == Err(ArithmeticError) <==> !DebtFits(s, id, now))
                  && (DebtFits(s, id, now) ==>
                        var due := Debt(s, id, now);
                        && (repayment < due && due - repayment <= I128_MAX ==>
                              r == Ok((WithBalance(s, id, due - repayment, now), due - repayment)))
                        && (repayment < due && due - repayment > I128_MAX ==>
                              r == Ok((WithBalance(s, id, I128_MAX, now), I128_MAX)))
                        && (repayment >= due && s.loans[id].assetId in s.assets ==>
                              r == Ok((PaidOff(s, id, now), 0)))
                        && (repayment >= due && s.loans[id].assetId !in s.assets ==> r == Err(AssetNotFound))))
  {
    if Callable(s, signers, caller, id) {
      AccrualIsDebt(s, id, now);
    }
  }

  // ---------------------------------------------------------------- liquidation

  // A liquidation pays out the debt with the bonus on top, rounded down, and closes the loan.
  lemma LiquidationPays(s: Kraal, signers: set<Address>, now: U32, liquidator: Address, id: LoanId)
    ensures var r := s.Liquidate(signers, now, liquidator, id);
            && Gated(r, s, signers, liquidator, id)
            && (r.Ok? ==>
                  && Callable(s, signers, liquidator, id) && DebtFits(s, id, now) && s.loans[id].assetId in s.assets
                  && var scaled := Debt(s, id, now) * (10_000 + s.config.value.liquidationBonusBps);
                     && r == Ok((PaidOff(s, id, now), r.value.1))
                     && (scaled >= 0 ==> r.value.1 * 10_000 <= scaled < (r.value.1 + 1) * 10_000)
                     && (scaled < 0 ==> (r.value.1 - 1) * 10_000 < scaled <= r.value.1 * 10_000))
  {
    if Callable(s, signers, liquidator, id) {
      AccrualIsDebt(s, id, now);
    }
  }

  // ---------------------------------------------------------------- configuration, registration and opening

  // A configuration is accepted once, signed by its administrator, with basis points in range and the threshold above
  // the ratio.
  lemma InitializationExactly(s: Kraal, signers: set<Address>, cfg: Config)
    ensures var r, ratio, threshold := s.Initialize(signers, cfg), cfg.collateralRatioBps, cfg.liquidationThresholdBps;
            && (r == Err(AlreadyInitialized) <==> s.config.Some?)
            && (r == Err(InvalidConfig) <==> s.config.None? && !(1 <= ratio < threshold < 10_001))
            && (r == Err(HostTrap) <==> s.config.None? && 1 <= ratio < threshold < 10_001 && cfg.admin !in signers)
            && (r.Ok? <==> s.config.None? && 1 <= ratio < threshold < 10_001 && cfg.admin in signers)
            && (r.Ok? ==> r.value.0 == Kraal(Some(cfg), s.assets, s.loans, s.nonce))
  {
  }

  // Anybody may register an asset; it starts free, whatever was stored under its ledger's name.
  lemma RegistrationExactly(s: Kraal, signers: set<Address>, now: U32, owner: Address, animal: string, tag: string,
                            value: int)
    ensures var r := s.RegisterAsset(signers, now, owner, animal, tag, value);
            && (r == Err(NotInitialized) <==> s.config.None?)
            && (r == Err(HostTrap) <==> s.config.Some? && owner !in signers)
            && (r.Ok? <==> s.config.Some? && owner in signers)
            && (r.Ok? ==>
                  var (t, a) := r.value;
                  && t == s.(assets := t.assets) && t.assets == s.assets[a := t.assets[a]]
                  && t.assets[a] == Asset(owner, animal, tag, value, false)
                  && |a.preimage| == 4 && FromBigEndian(a.preimage) == now)
  {
    BigEndianRoundTrip(now, 4);
    assert Pow256(4) == 0x1_0000_0000;
  }

  /** What the loan-to-value check demands, in stroops times 10_000. */
  predicate WithinRatio(cfg: Config, value: int, principal: int) {
    InI128(value * cfg.collateralRatioBps) && principal <= TruncDiv(value * cfg.collateralRatioBps, 10_000)
  }

  // When a loan opens, and what it opens with: the fee is owed on top of the principal, but not lent against.
  lemma OpeningExactly(s: Kraal, signers: set<Address>, now: U32, borrower: Address, asset: AssetId, principal: I128)
    ensures var r := s.OpenLoan(signers, now, borrower, asset, principal);
            && (r.Ok? <==>
                  && s.config.Some? && borrower in signers && asset in s.assets && !s.assets[asset].onLoan
                  && WithinRatio(s.config.value, s.assets[asset].appraisedValue, principal)
                  && InI128(principal + s.config.value.creationFee) && s.nonce < 0xFFFF_FFFF_FFFF_FFFF)
            && (r == Err(NotInitialized) <==> s.config.None?)
            && (r == Err(HostTrap) <==> s.config.Some? && borrower !in signers)
            && (s.config.Some? && borrower in signers ==>
                  && (r == Err(AssetNotFound) <==> asset !in s.assets)
                  && (r == Err(AssetAlreadyOnLoan) <==> OnLoan(s, asset))
                  && (r == Err(PrincipalExceedsLtv) <==>
                        && asset in s.assets && !s.assets[asset].onLoan
                        && InI128(s.assets[asset].appraisedValue * s.config.value.collateralRatioBps)
                        && !WithinRatio(s.config.value, s.assets[asset].appraisedValue, principal)))
            && (r.Ok? ==>
                  var (t, id) := r.value;
                  && t == s.(assets := t.assets, nonce := s.nonce + 1, loans := t.loans)
                  && t.loans == s.loans[id := t.loans[id]]
                  && t.loans[id] == Loan(borrower, asset, principal, principal + s.config.value.creationFee, now, now,
                                         true)
                  && t.assets == s.assets[asset := t.assets[asset]] && OnLoan(t, asset)
                  && t.assets[asset] == s.assets[asset].(onLoan := true))
  {
  }

  // ---------------------------------------------------------------- the view

  // The view reports collateral at the threshold over 100 times the stored balance, times 10_000, rounded down; a loan
  // without a balance is as healthy as can be.
  lemma ViewExactly(s: Kraal, id: LoanId)
    ensures var r := s.HealthFactor(id);
            && (r == Err(NotInitialized) <==> s.config.None?)
            && (r == Err(LoanNotFound) <==> s.config.Some? && id !in s.loans)
            && (s.config.Some? && id in s.loans ==>
                  var loan, threshold := s.loans[id], s.config.value.liquidationThresholdBps;
                  && (loan.balance == 0 ==> r == Ok(I128_MAX))
                  && (r == Err(AssetNotFound) <==> loan.balance != 0 && loan.assetId !in s.assets)
                  && (loan.balance > 0 && loan.assetId in s.assets && threshold >= 0 ==>
                        var value := s.assets[loan.assetId].appraisedValue;
                        && (r.Ok? <==> InI128(value * threshold) && InI128(value * threshold * 100)
                                       && InI128(loan.balance * 10_000))
                        && (r.Ok? && value >= 0 ==>
                              r.value == value * threshold * 100 / (loan.balance * 10_000))))
  {
  }

  // ---------------------------------------------------------------- the account of a loan over a run

  predicate Repays(s: Kraal, call: Call, id: LoanId) {
    && call.RepayLoan? && call.loanId == id
    && s.RepayLoan(call.signers, call.now, call.caller, id, call.repayment).Ok?
  }

  predicate Seized(s: Kraal, call: Call, id: LoanId) {
    call.Liquidate? && call.loanId == id && s.Liquidate(call.signers, call.now, call.liquidator, id).Ok?
  }

  /** The interest an accepted call adds to the debt. */
  ghost function Charged(s: Kraal, call: Call, id: LoanId): int {
    if (Repays(s, call, id) || Seized(s, call, id)) && s.config.Some? && id in s.loans
    then Debt(s, id, call.now) - s.loans[id].balance
    else 0
  }

  /** What it takes off: the repayment, but never more than is owed, or all of it in a liquidation. */
  ghost function Credited(s: Kraal, call: Call, id: LoanId): int {
    if Repays(s, call, id) && s.config.Some? && id in s.loans then
      var due := Debt(s, id, call.now);
      if call.repayment >= due then due
      else if due - call.repayment > I128_MAX then due - I128_MAX else call.repayment
    else if Seized(s, call, id) && s.config.Some? && id in s.loans then Debt(s, id, call.now)
    else 0
  }

  ghost function TotalCharged(s: Kraal, calls: seq<Call>, id: LoanId): int
    decreases |calls|
  {
    if calls == [] then 0 else Charged(s, calls[0], id) + TotalCharged(Apply(s, calls[0]), calls[1..], id)
  }

  ghost function TotalCredited(s: Kraal, calls: seq<Call>, id: LoanId): int
    decreases |calls|
  {
    if calls == [] then 0 else Credited(s, calls[0], id) + TotalCredited(Apply(s, calls[0]), calls[1..], id)
  }

  /** Repayments as the contract receives them. */
  ghost predicate MachineSized(calls: seq<Call>) {
    forall call :: call in calls && call.RepayLoan? ==> InI128(call.repayment)
  }

  lemma AccountStep(s: Kraal, call: Call, id: LoanId)
    requires Locked(s) && id in s.loans && (call.RepayLoan? ==> InI128(call.repayment))
    ensures var t := Apply(s, call);
            && id in t.loans
            && t.loans[id].balance == s.loans[id].balance + Charged(s, call, id) - Credited(s, call, id)
  {
    match call {
      case RepayLoan(signers, now, caller, loan, repayment) =>
        RepaymentExactly(s, signers, now, caller, loan, repayment);
      case Liquidate(signers, now, liquidator, loan) =>
        LiquidationPays(s, signers, now, liquidator, loan);
      case OpenLoan(signers, now, borrower, asset, principal) =>
        if s.nonce < U64_MAX {
          NewLoanIsFresh(s, now, asset);
        }
      case _ =>
    }
  }

  // Over every run a balance is what it was, plus the interest charged, less the repayments credited.
  lemma {:induction false} DebtIsAccounted(s: Kraal, calls: seq<Call>, id: LoanId)
    requires Locked(s) && AdmissibleRun(s, calls) && id in s.loans && MachineSized(calls)
    ensures var t := Run(s, calls);
            && id in t.loans
            && t.loans[id].balance == s.loans[id].balance + TotalCharged(s, calls, id) - TotalCredited(s, calls, id)
    decreases |calls|
  {
    if calls != [] {
      assert calls[0] in calls;
      AccountStep(s, calls[0], id);
      LockedStep(s, calls[0]);
      DebtIsAccounted(Apply(s, calls[0]), calls[1..], id);
    }
  }

  // From the opening on: principal, fee and interest against repayments.
  lemma AccountFromOpening(s: Kraal, signers: set<Address>, now: U32, borrower: Address, asset: AssetId,
                           principal: I128, calls: seq<Call>)
    requires Locked(s) && s.OpenLoan(signers, now, borrower, asset, principal).Ok?
    requires AdmissibleRun(s.OpenLoan(signers, now, borrower, asset, principal).value.0, calls) && MachineSized(calls)
    ensures var (first, id) := s.OpenLoan(signers, now, borrower, asset, principal).value;
            var t := Run(first, calls);
            && s.config.Some? && id in t.loans
            && t.loans[id].balance == principal + s.config.value.creationFee
                                      + TotalCharged(first, calls, id) - TotalCredited(first, calls, id)
  {
    OpeningExactly(s, signers, now, borrower, asset, principal);
    OpenLoanKeepsLock(s, signers, now, borrower, asset, principal);
    var (first, id) := s.OpenLoan(signers, now, borrower, asset, principal).value;
    DebtIsAccounted(first, calls, id);
  }

  ghost predicate ClosedOweNothing(s: Kraal) {
    forall id :: id in s.loans && !s.loans[id].active ==> s.loans[id].balance == 0
  }

  // A closed loan owes nothing, over every run.
  lemma {:induction false} EveryRunClosesAtZero(s: Kraal, calls: seq<Call>)
    requires ClosedOweNothing(s)
    ensures ClosedOweNothing(Run(s, calls))
    decreases |calls|
  {
    if calls != [] {
      EveryRunClosesAtZero(Apply(s, calls[0]), calls[1..]);
    }
  }
}
