/** The lock between assets and active loans over whole runs of the loan contract. */
module LoanLock {
  import opened Base
  import opened Bytes
  import opened LivestockLoans

  datatype Call =
    | Initialize(signers: set<Address>, cfg: Config)
    | RegisterAsset(signers: set<Address>, now: U32, owner: Address, animalType: string, tagId: string, value: int)
    | OpenLoan(signers: set<Address>, now: U32, borrower: Address, assetId: AssetId, principal: int)
    | RepayLoan(signers: set<Address>, now: U32, caller: Address, loanId: LoanId, repayment: int)
    | Liquidate(signers: set<Address>, now: U32, liquidator: Address, loanId: LoanId)

  function After<T>(s: Kraal, r: Outcome<T>): Kraal {
    if r.Ok? then r.value.0 else s
  }

  function Apply(s: Kraal, call: Call): Kraal {
    match call
    case Initialize(signers, cfg) => After(s, s.Initialize(signers, cfg))
    case RegisterAsset(signers, now, owner, animal, tag, value) =>
      After(s, s.RegisterAsset(signers, now, owner, animal, tag, value))
    case OpenLoan(signers, now, borrower, asset, principal) =>
      After(s, s.OpenLoan(signers, now, borrower, asset, principal))
    case RepayLoan(signers, now, caller, loan, repayment) =>
      After(s, s.RepayLoan(signers, now, caller, loan, repayment))
    case Liquidate(signers, now, liquidator, loan) => After(s, s.Liquidate(signers, now, liquidator, loan))
  }

  predicate OnLoan(s: Kraal, a: AssetId) {
    a in s.assets && s.assets[a].onLoan
  }

  /** No asset is registered over collateral of the same ledger (see `RegistrationKeepsLock`). */
  predicate Admissible(s: Kraal, call: Call) {
    call.RegisterAsset? ==> !OnLoan(s, AssetOf(call.now))
  }

  ghost function Run(s: Kraal, calls: seq<Call>): Kraal
    decreases |calls|
  {
    if calls == [] then s else Run(Apply(s, calls[0]), calls[1..])
  }

  ghost predicate AdmissibleRun(s: Kraal, calls: seq<Call>)
    decreases |calls|
  {
    calls != [] ==> Admissible(s, calls[0]) && AdmissibleRun(Apply(s, calls[0]), calls[1..])
  }

  // ---------------------------------------------------------------- loan ids

  // The seed's fields have fixed widths, so equal seeds come from equal fields.
  lemma SeedInjective(now: U32, asset: AssetId, nonce: nat, now': U32, asset': AssetId, nonce': nat)
    requires nonce <= U64_MAX && nonce' <= U64_MAX
    requires Seed(now, asset, nonce) == Seed(now', asset', nonce')
    ensures now == now' && asset == asset' && nonce == nonce'
  {
    var s, s' := Seed(now, asset, nonce), Seed(now', asset', nonce');
    assert Octets(BigEndian(now, 4)) == s[..4] && Octets(BigEndian(now', 4)) == s'[..4];
    assert Parts(asset) == s[4..36] && Parts(asset') == s'[4..36];
    assert Octets(BigEndian(nonce, 8)) == s[36..] && Octets(BigEndian(nonce', 8)) == s'[36..];
    OctetsInjective(BigEndian(now, 4), BigEndian(now', 4));
    PartsInjective(asset, asset');
    OctetsInjective(BigEndian(nonce, 8), BigEndian(nonce', 8));
    WordSizes();
    BigEndianInjective(now, now', 4);
    BigEndianInjective(nonce, nonce', 8);
  }

  ghost predicate Stamped(id: LoanId, loan: Loan, nonce: nat) {
    exists k: nat :: 1 <= k <= nonce && id == OuterDigest(Seed(loan.openedAt, loan.assetId, k))
  }

  // ---------------------------------------------------------------- the invariant

  ghost predicate Names(s: Kraal, id: LoanId, a: AssetId) {
    id in s.loans && s.loans[id].active && s.loans[id].assetId == a
  }

  ghost predicate Locked(s: Kraal) {
    && s.nonce <= U64_MAX
    && (forall id :: id in s.loans ==> s.loans[id].assetId in s.assets && Stamped(id, s.loans[id], s.nonce))
    && (forall id, a :: Names(s, id, a) ==> OnLoan(s, a))
    && (forall a :: OnLoan(s, a) ==> exists id :: Names(s, id, a))
    && (forall id, id', a :: Names(s, id, a) && Names(s, id', a) ==> id == id')
  }

  /** What no call undoes: loan records stay, keep their terms, and never change once closed. */
  ghost predicate Keeps(s: Kraal, t: Kraal) {
    forall id :: id in s.loans ==>
      && id in t.loans
      && t.loans[id] == s.loans[id].(balance := t.loans[id].balance, updatedAt := t.loans[id].updatedAt,
                                     active := t.loans[id].active)
      && (!s.loans[id].active ==> t.loans[id] == s.loans[id])
  }

  // The nonce makes every new loan id different from all stored ones.
  lemma NewLoanIsFresh(s: Kraal, now: U32, asset: AssetId)
    requires Locked(s) && s.nonce < U64_MAX
    ensures OuterDigest(Seed(now, asset, s.nonce + 1)) !in s.loans
  {
    var id := OuterDigest(Seed(now, asset, s.nonce + 1));
    if id in s.loans {
      var loan := s.loans[id];
      assert Stamped(id, loan, s.nonce);
      var k: nat :| 1 <= k <= s.nonce && id == OuterDigest(Seed(loan.openedAt, loan.assetId, k));
      SeedInjective(now, asset, s.nonce + 1, loan.openedAt, loan.assetId, k);
    }
  }

  lemma OpenLoanKeepsLock(s: Kraal, signers: set<Address>, now: U32, borrower: Address, asset: AssetId, principal: int)
    requires Locked(s) && s.OpenLoan(signers, now, borrower, asset, principal).Ok?
    ensures var (t, id) := s.OpenLoan(signers, now, borrower, asset, principal).value;
            Locked(t) && Keeps(s, t) && id !in s.loans && Names(t, id, asset)
  {
    var (t, id) := s.OpenLoan(signers, now, borrower, asset, principal).value;
    NewLoanIsFresh(s, now, asset);
    forall l | l in t.loans ensures Stamped(l, t.loans[l], t.nonce) {
      if l != id {
        assert Stamped(l, s.loans[l], s.nonce);
      }
    }
    forall l, a ensures Names(t, l, a) <==> Names(s, l, a) || (l == id && a == asset) {
    }
    forall a | OnLoan(t, a) ensures exists l :: Names(t, l, a) {
      if a == asset {
        assert Names(t, id, a);
      } else {
        assert OnLoan(s, a);
        var l :| Names(s, l, a);
        assert Names(t, l, a);
      }
    }
  }

  lemma CloseKeepsLock(s: Kraal, id: LoanId, now: U32)
    requires Locked(s) && id in s.loans && s.loans[id].active
    ensures s.Close(id, now).Ok?
    ensures Locked(s.Close(id, now).value) && Keeps(s, s.Close(id, now).value)
    ensures !OnLoan(s.Close(id, now).value, s.loans[id].assetId)
  {
    var t, asset := s.Close(id, now).value, s.loans[id].assetId;
    assert Names(s, id, asset);
    forall l | l in t.loans ensures Stamped(l, t.loans[l], t.nonce) {
      assert Stamped(l, s.loans[l], s.nonce);
    }
    forall l, a ensures Names(t, l, a) <==> Names(s, l, a) && a != asset {
      assert Names(s, l, asset) ==> l == id;
    }
    forall a | OnLoan(t, a) ensures exists l :: Names(t, l, a) {
      assert OnLoan(s, a);
      var l :| Names(s, l, a);
      assert Names(t, l, a);
    }
  }

  lemma TouchKeepsLock(s: Kraal, id: LoanId, balance: int, now: U32)
    requires Locked(s) && id in s.loans && s.loans[id].active
    ensures var t := s.(loans := s.loans[id := s.loans[id].(balance := balance, updatedAt := now)]);
            Locked(t) && Keeps(s, t)
  {
    var t := s.(loans := s.loans[id := s.loans[id].(balance := balance, updatedAt := now)]);
    forall l | l in t.loans ensures Stamped(l, t.loans[l], t.nonce) {
      assert Stamped(l, s.loans[l], s.nonce);
    }
    forall l, a ensures Names(t, l, a) <==> Names(s, l, a) {
    }
    forall a | OnLoan(t, a) ensures exists l :: Names(t, l, a) {
      assert OnLoan(s, a);
      var l :| Names(s, l, a);
      assert Names(t, l, a);
    }
  }

  // `register_asset` resets an existing record; the lock survives exactly when that record was not collateral.
  lemma RegistrationKeepsLock(s: Kraal, signers: set<Address>, now: U32, owner: Address, animal: string, tag: string,
                              value: int)
    requires Locked(s) && s.RegisterAsset(signers, now, owner, animal, tag, value).Ok?
    ensures var t := s.RegisterAsset(signers, now, owner, animal, tag, value).value.0;
            (Locked(t) <==> !OnLoan(s, AssetOf(now))) && Keeps(s, t)
  {
    var id := AssetOf(now);
    var t := s.RegisterAsset(signers, now, owner, animal, tag, value).value.0;
    forall l, a ensures Names(t, l, a) <==> Names(s, l, a) {
    }
    if OnLoan(s, id) {
      var l :| Names(s, l, id);
      assert Names(t, l, id);
    } else {
      forall a | OnLoan(t, a) ensures exists l :: Names(t, l, a) {
        assert OnLoan(s, a);
        var l :| Names(s, l, a);
        assert Names(t, l, a);
      }
    }
  }

  lemma ConfigKeepsLock(s: Kraal, config: Option<Config>)
    requires Locked(s)
    ensures Locked(s.(config := config)) && Keeps(s, s.(config := config))
  {
    var t := s.(config := config);
    forall l, a ensures Names(t, l, a) <==> Names(s, l, a) {
    }
    forall a | OnLoan(t, a) ensures exists l :: Names(t, l, a) {
      assert OnLoan(s, a);
      var l :| Names(s, l, a);
      assert Names(t, l, a);
    }
  }

  lemma RepaymentKeepsLock(s: Kraal, signers: set<Address>, now: U32, caller: Address, id: LoanId, repayment: int)
    requires Locked(s) && s.RepayLoan(signers, now, caller, id, repayment).Ok?
    ensures var t := s.RepayLoan(signers, now, caller, id, repayment).value.0;
            Locked(t) && Keeps(s, t)
  {
    CloseKeepsLock(s, id, now);
    TouchKeepsLock(s, id, s.RepayLoan(signers, now, caller, id, repayment).value.1, now);
  }

  lemma LockedStep(s: Kraal, call: Call)
    requires Locked(s) && Admissible(s, call)
    ensures Locked(Apply(s, call)) && Keeps(s, Apply(s, call))
  {
    if Apply(s, call) != s {
      match call
      case Initialize(_, cfg) =>
        ConfigKeepsLock(s, Some(cfg));
      case RegisterAsset(signers, now, owner, animal, tag, value) =>
        RegistrationKeepsLock(s, signers, now, owner, animal, tag, value);
      case OpenLoan(signers, now, borrower, asset, principal) =>
        OpenLoanKeepsLock(s, signers, now, borrower, asset, principal);
      case RepayLoan(signers, now, caller, id, repayment) =>
        RepaymentKeepsLock(s, signers, now, caller, id, repayment);
      case Liquidate(signers, now, liquidator, id) =>
        CloseKeepsLock(s, id, now);
    }
  }

  lemma {:induction false} EveryRunIsLocked(s: Kraal, calls: seq<Call>)
    requires Locked(s) && AdmissibleRun(s, calls)
    ensures Locked(Run(s, calls)) && Keeps(s, Run(s, calls))
    decreases |calls|
  {
    if calls != [] {
      LockedStep(s, calls[0]);
      EveryRunIsLocked(Apply(s, calls[0]), calls[1..]);
    }
  }

  // From empty storage, an asset is on loan exactly when precisely one active loan names it.
  lemma LockFromGenesis(calls: seq<Call>, a: AssetId)
    requires AdmissibleRun(EMPTY, calls)
    ensures var s := Run(EMPTY, calls);
            OnLoan(s, a) <==> exists id :: Names(s, id, a) && forall other :: Names(s, other, a) ==> other == id
  {
    EveryRunIsLocked(EMPTY, calls);
    var s := Run(EMPTY, calls);
    if OnLoan(s, a) {
      var id :| Names(s, id, a);
      forall other | Names(s, other, a) ensures other == id {
      }
    }
  }

  // ---------------------------------------------------------------- one registration per ledger

  /** Every registration runs in a later ledger than the one before. */
  ghost predicate RegistrationsApart(calls: seq<Call>, after: int)
    decreases |calls|
  {
    calls != [] ==>
      if calls[0].RegisterAsset? then after < calls[0].now && RegistrationsApart(calls[1..], calls[0].now)
      else RegistrationsApart(calls[1..], after)
  }

  ghost predicate NamedUpTo(s: Kraal, after: int) {
    forall a :: a in s.assets ==> exists ledger: U32 :: ledger <= after && a == AssetOf(ledger)
  }

  lemma AssetNamesApart(ledger: U32, ledger': U32)
    requires AssetOf(ledger) == AssetOf(ledger')
    ensures ledger == ledger'
  {
    WordSizes();
    BigEndianInjective(ledger, ledger', 4);
  }

  lemma NamesStep(s: Kraal, call: Call, after: int)
    requires NamedUpTo(s, after) && (call.RegisterAsset? ==> after < call.now)
    ensures NamedUpTo(Apply(s, call), if call.RegisterAsset? then call.now else after)
    ensures Admissible(s, call)
  {
    if call.RegisterAsset? && OnLoan(s, AssetOf(call.now)) {
      var ledger: U32 :| ledger <= after && AssetOf(call.now) == AssetOf(ledger);
      AssetNamesApart(call.now, ledger);
    }
    var t, last := Apply(s, call), if call.RegisterAsset? then call.now else after;
    forall a | a in t.assets ensures exists ledger: U32 :: ledger <= last && a == AssetOf(ledger) {
      if a in s.assets {
        var ledger: U32 :| ledger <= after && a == AssetOf(ledger);
      }
    }
  }

  lemma {:induction false} ApartIsAdmissible(s: Kraal, calls: seq<Call>, after: int)
    requires NamedUpTo(s, after) && RegistrationsApart(calls, after)
    ensures AdmissibleRun(s, calls)
    decreases |calls|
  {
    if calls != [] {
      NamesStep(s, calls[0], after);
      ApartIsAdmissible(Apply(s, calls[0]), calls[1..], if calls[0].RegisterAsset? then calls[0].now else after);
    }
  }

  // So one registration per ledger is enough for the lock.
  lemma LockWithRegistrationsApart(calls: seq<Call>, a: AssetId)
    requires RegistrationsApart(calls, -1)
    ensures var s := Run(EMPTY, calls);
            OnLoan(s, a) <==> exists id :: Names(s, id, a) && forall other :: Names(s, other, a) ==> other == id
  {
    ApartIsAdmissible(EMPTY, calls, -1);
    LockFromGenesis(calls, a);
  }

  const TERMS := Config(0, 5_000, 8_000, 500, 1_000, 0)
  const COW := RegisterAsset({1}, 5, 1, "cow", "A", 1_000)
  const LEND_IN_FIVE := OpenLoan({1}, 5, 1, AssetOf(5), 100)
  const GOAT := RegisterAsset({2}, 5, 2, "goat", "B", 1_000)
  const LEND_IN_SIX := OpenLoan({2}, 6, 2, AssetOf(5), 100)
  const FIRST_LOAN := OuterDigest(Seed(5, AssetOf(5), 1))
  const SECOND_LOAN := OuterDigest(Seed(6, AssetOf(5), 2))

  // What lending 100 against a free asset appraised at 1000 does.
  lemma HundredLent(s: Kraal, now: U32, borrower: Address, asset: AssetId)
    requires s.config == Some(TERMS) && s.nonce < U64_MAX
    requires asset in s.assets && !s.assets[asset].onLoan && s.assets[asset].appraisedValue == 1_000
    ensures var t, id := Apply(s, OpenLoan({borrower}, now, borrower, asset, 100)),
            OuterDigest(Seed(now, asset, s.nonce + 1));
            && t.config == s.config && t.nonce == s.nonce + 1
            && t.assets == s.assets[asset := s.assets[asset].(onLoan := true)]
            && t.loans == s.loans[id := Loan(borrower, asset, 100, 100, now, now, true)]
  {
    assert MaxPrincipal(TERMS, 1_000) == Ok(500);
  }

  // The first three calls.
  lemma FirstLent(asset: AssetId) returns (s: Kraal)
    requires asset == AssetOf(5)
    ensures s == Apply(Apply(Apply(EMPTY, Initialize({0}, TERMS)), COW), LEND_IN_FIVE)
    ensures s.config == Some(TERMS) && s.nonce == 1 && asset in s.assets
    ensures Names(s, OuterDigest(Seed(5, asset, 1)), asset)
  {
    s := Apply(Apply(EMPTY, Initialize({0}, TERMS)), COW);
    assert s.assets == map[asset := Asset(1, "cow", "A", 1_000, false)];
    HundredLent(s, 5, 1, asset);
    s := Apply(s, LEND_IN_FIVE);
  }

  // The other two.
  lemma SecondLent(s: Kraal, asset: AssetId, first: LoanId)
    requires asset == AssetOf(5) && first == OuterDigest(Seed(5, asset, 1))
    requires s.config == Some(TERMS) && s.nonce == 1 && asset in s.assets && Names(s, first, asset)
    ensures var t, second := Apply(Apply(s, GOAT), LEND_IN_SIX), OuterDigest(Seed(6, asset, 2));
            first != second && Names(t, first, asset) && Names(t, second, asset)
  {
    var swapped := Apply(s, GOAT);
    assert swapped == s.(assets := s.assets[asset := Asset(2, "goat", "B", 1_000, false)]);
    HundredLent(swapped, 6, 2, asset);
    if first == OuterDigest(Seed(6, asset, 2)) {
      SeedInjective(5, asset, 1, 6, asset, 2);
    }
  }

  lemma RunOfFive(s: Kraal, a: Call, b: Call, c: Call, d: Call, e: Call)
    ensures Run(s, [a, b, c, d, e]) == Apply(Apply(Apply(Apply(Apply(s, a), b), c), d), e)
  {
    assert [a, b, c, d, e][1..] == [b, c, d, e] && [b, c, d, e][1..] == [c, d, e];
    assert [c, d, e][1..] == [d, e] && [d, e][1..] == [e] && [e][1..] == [];
    var s1 := Apply(s, a);
    var s2 := Apply(s1, b);
    var s3 := Apply(s2, c);
    var s4 := Apply(s3, d);
    assert Run(s4, [e]) == Apply(s4, e);
    assert Run(s3, [d, e]) == Run(s4, [e]);
    assert Run(s2, [c, d, e]) == Run(s3, [d, e]);
    assert Run(s1, [b, c, d, e]) == Run(s2, [c, d, e]);
  }

  // Two registrations in one ledger: the second clears the lock on the first's collateral, which then backs a second
  // loan.
  lemma TwoRegistrationsInOneLedger()
    ensures var s := Run(EMPTY, [Initialize({0}, TERMS), COW, LEND_IN_FIVE, GOAT, LEND_IN_SIX]);
            FIRST_LOAN != SECOND_LOAN && Names(s, FIRST_LOAN, AssetOf(5)) && Names(s, SECOND_LOAN, AssetOf(5))
  {
    RunOfFive(EMPTY, Initialize({0}, TERMS), COW, LEND_IN_FIVE, GOAT, LEND_IN_SIX);
    var s := FirstLent(AssetOf(5));
    SecondLent(s, AssetOf(5), FIRST_LOAN);
  }

  // ---------------------------------------------------------------- configuration and lending limit

  // The configuration is accepted once, and only with a threshold above the ratio.
  lemma {:induction false} ConfigStays(s: Kraal, calls: seq<Call>)
    requires s.config.Some? ==> ValidConfig(s.config.value)
    ensures var t := Run(s, calls);
            && (t.config.Some? ==> ValidConfig(t.config.value))
            && (s.config.Some? ==> t.config == s.config)
    decreases |calls|
  {
    if calls != [] {
      ConfigStays(Apply(s, calls[0]), calls[1..]);
    }
  }

  /** The loan's principal is within the limit of its collateral as it is appraised now. */
  predicate Covered(s: Kraal, id: LoanId)
    requires id in s.loans
  {
    && s.config.Some? && s.loans[id].assetId in s.assets
    && var limit := MaxPrincipal(s.config.value, s.assets[s.loans[id].assetId].appraisedValue);
       limit.Ok? && s.loans[id].principal <= limit.value
  }

  ghost predicate WithinLimit(s: Kraal) {
    forall id :: id in s.loans && s.loans[id].active ==> Covered(s, id)
  }

  // No admissible call re-appraises the collateral of an active loan or changes the limit.
  lemma AppraisalStays(s: Kraal, call: Call, id: LoanId)
    requires Locked(s) && Admissible(s, call) && id in s.loans && s.loans[id].active && s.config.Some?
    ensures var t, a := Apply(s, call), s.loans[id].assetId;
            t.config == s.config && a in t.assets && t.assets[a].appraisedValue == s.assets[a].appraisedValue
  {
    assert Names(s, id, s.loans[id].assetId);
  }

  lemma LendingStep(s: Kraal, call: Call)
    requires Locked(s) && Admissible(s, call) && WithinLimit(s)
    ensures WithinLimit(Apply(s, call))
  {
    var t := Apply(s, call);
    LockedStep(s, call);
    forall id | id in t.loans && t.loans[id].active ensures Covered(t, id) {
      if id in s.loans {
        AppraisalStays(s, call, id);
      } else {
        assert call.OpenLoan?;
      }
    }
  }

  // No run lends beyond the limit, whatever is registered afterwards.
  lemma {:induction false} EveryRunLendsWithinLimit(s: Kraal, calls: seq<Call>)
    requires Locked(s) && AdmissibleRun(s, calls) && WithinLimit(s)
    ensures WithinLimit(Run(s, calls))
    decreases |calls|
  {
    if calls != [] {
      LockedStep(s, calls[0]);
      LendingStep(s, calls[0]);
      EveryRunLendsWithinLimit(Apply(s, calls[0]), calls[1..]);
    }
  }
}
