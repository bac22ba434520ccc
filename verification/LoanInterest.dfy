/** What rounding does to interest when an untouched period is split by touches that repay nothing. */
module LoanInterest {
  import opened Base
  import opened LivestockLoans

  // ---------------------------------------------------------------- exact growth

  /** A balance after `n` ledgers, interest rounded down. */
  function Grown(balance: nat, rate: nat, n: nat): nat {
    balance + balance * rate * n / RATE_UNIT
  }

  /** The balance after touching the loan at the end of each gap. */
  function GrownBy(balance: nat, rate: nat, gaps: seq<nat>): nat
    decreases |gaps|
  {
    if gaps == [] then balance else GrownBy(Grown(balance, rate, gaps[0]), rate, gaps[1..])
  }

  function Sum(gaps: seq<nat>): nat {
    if gaps == [] then 0 else gaps[0] + Sum(gaps[1..])
  }

  lemma AccrueIsGrown(balance: nat, rate: nat, n: nat)
    requires Accrue(balance, rate, n).Ok?
    ensures Accrue(balance, rate, n) == Ok(Grown(balance, rate, n)) && balance <= Grown(balance, rate, n) <= I128_MAX
  {
    assert balance * rate * n >= 0;
  }

  lemma MulMonotone(a: nat, b: nat, c: nat)
    requires a <= b
    ensures a * c <= b * c
  {
  }

  lemma GrownMonotone(a: nat, b: nat, rate: nat, m: nat, n: nat)
    requires a <= b && m <= n
    ensures Grown(a, rate, m) <= Grown(b, rate, n)
  {
    MulMonotone(a, b, rate);
    MulMonotone(a * rate, b * rate, m);
    MulMonotone(m, n, b * rate);
    assert b * rate * m == m * (b * rate) && b * rate * n == n * (b * rate);
    assert a * rate * m <= b * rate * n;
    DivMonotone(a * rate * m, b * rate * n);
  }

  lemma DivMonotone(x: nat, y: nat)
    requires x <= y
    ensures x / RATE_UNIT <= y / RATE_UNIT
  {
  }

  lemma DivSuperadditive(x: nat, y: nat)
    ensures (x + y) / RATE_UNIT <= x / RATE_UNIT + y / RATE_UNIT + 1
    ensures x / RATE_UNIT + y / RATE_UNIT <= (x + y) / RATE_UNIT
  {
  }

  // ---------------------------------------------------------------- splitting loses at most one stroop a touch

  lemma GrownSplit(balance: nat, rate: nat, m: nat, n: nat)
    ensures Grown(balance, rate, m + n) <= Grown(Grown(balance, rate, m), rate, n) + 1
  {
    var base := balance * rate;
    assert balance * rate * (m + n) == base * m + base * n;
    DivSuperadditive(base * m, base * n);
    var mid := Grown(balance, rate, m);
    MulMonotone(balance, mid, rate);
    MulMonotone(base, mid * rate, n);
    DivMonotone(base * n, mid * rate * n);
  }

  lemma {:induction false} SplittingLosesLittle(balance: nat, rate: nat, gaps: seq<nat>)
    requires gaps != []
    ensures GrownBy(balance, rate, gaps) + |gaps| - 1 >= Grown(balance, rate, Sum(gaps))
    decreases |gaps|
  {
    var mid := Grown(balance, rate, gaps[0]);
    if |gaps| == 1 {
      assert gaps[1..] == [];
      assert GrownBy(mid, rate, gaps[1..]) == mid;
    } else {
      SplittingLosesLittle(mid, rate, gaps[1..]);
      GrownSplit(balance, rate, gaps[0], Sum(gaps[1..]));
    }
  }

  // ---------------------------------------------------------------- and never beats compounding

  function Pow(base: nat, k: nat): (p: nat)
    ensures base > 0 ==> p > 0
  {
    if k == 0 then 1 else base * Pow(base, k - 1)
  }

  /** RATE_UNIT to the number of gaps, times the exact compound factor. */
  function Compound(rate: nat, gaps: seq<nat>): nat {
    if gaps == [] then 1 else (RATE_UNIT + rate * gaps[0]) * Compound(rate, gaps[1..])
  }

  lemma GrownUnderOneFactor(balance: nat, rate: nat, n: nat)
    ensures RATE_UNIT * Grown(balance, rate, n) <= balance * (RATE_UNIT + rate * n)
  {
    var x := balance * rate * n;
    assert RATE_UNIT * (x / RATE_UNIT) <= x;
    assert balance * (RATE_UNIT + rate * n) == balance * RATE_UNIT + x;
  }

  lemma CompoundStep(unit: nat, p: nat, final: nat, mid: nat, c: nat, balance: nat, factor: nat)
    requires p * final <= mid * c && unit * mid <= balance * factor
    ensures unit * p * final <= balance * (factor * c)
  {
    MulMonotone(p * final, mid * c, unit);
    MulMonotone(unit * mid, balance * factor, c);
    assert unit * p * final == p * final * unit;
    assert mid * c * unit == unit * mid * c;
    assert balance * factor * c == balance * (factor * c);
  }

  lemma {:induction false} SplittingStaysUnderCompound(balance: nat, rate: nat, gaps: seq<nat>)
    ensures Pow(RATE_UNIT, |gaps|) * GrownBy(balance, rate, gaps) <= balance * Compound(rate, gaps)
    decreases |gaps|
  {
    if gaps != [] {
      var mid, rest := Grown(balance, rate, gaps[0]), gaps[1..];
      SplittingStaysUnderCompound(mid, rate, rest);
      GrownUnderOneFactor(balance, rate, gaps[0]);
      CompoundStep(RATE_UNIT, Pow(RATE_UNIT, |rest|), GrownBy(mid, rate, rest), mid, Compound(rate, rest),
                   balance, RATE_UNIT + rate * gaps[0]);
    }
  }

  // ---------------------------------------------------------------- the contract's own calls

  /** Zero-repayment calls to repay_loan at the given ledgers. */
  function Touch(s: Kraal, signers: set<Address>, caller: Address, id: LoanId, ledgers: seq<U32>)
    : Result<Kraal, LoanError>
    decreases |ledgers|
  {
    if ledgers == [] then Ok(s)
    else
      var first :- s.RepayLoan(signers, ledgers[0], caller, id, 0);
      Touch(first.0, signers, caller, id, ledgers[1..])
  }

  ghost predicate NonDecreasing(from: U32, ledgers: seq<U32>)
    decreases |ledgers|
  {
    ledgers != [] ==> from <= ledgers[0] && NonDecreasing(ledgers[0], ledgers[1..])
  }

  ghost function Gaps(from: U32, ledgers: seq<U32>): (gaps: seq<nat>)
    requires NonDecreasing(from, ledgers)
    ensures |gaps| == |ledgers|
    ensures Sum(gaps) == (if ledgers == [] then 0 else ledgers[|ledgers| - 1] - from)
    decreases |ledgers|
  {
    if ledgers == [] then [] else
    var rest := Gaps(ledgers[0], ledgers[1..]);
    assert Sum([ledgers[0] - from] + rest) == ledgers[0] - from + Sum(rest);
    [ledgers[0] - from] + rest
  }

  ghost predicate OwedLoan(s: Kraal, id: LoanId) {
    && s.config.Some? && s.config.value.interestRateBps >= 0
    && id in s.loans && s.loans[id].active && 0 < s.loans[id].balance <= I128_MAX
  }

  lemma SettleUnpaid(s: Kraal, id: LoanId, now: U32, due: int, repayment: int)
    requires OwedLoan(s, id) && 0 < due <= I128_MAX && repayment <= 0
    requires s.Settle(id, now, due, repayment).Ok?
    ensures var t := s.Settle(id, now, due, repayment).value.0;
            && OwedLoan(t, id) && t == s.(loans := t.loans) && t.loans[id].balance >= due
            && (repayment == 0 ==> t.loans[id].balance == due)
            && t.loans == s.loans[id := s.loans[id].(balance := t.loans[id].balance, updatedAt := now)]
  {
  }

  lemma TouchOnce(s: Kraal, signers: set<Address>, now: U32, caller: Address, id: LoanId)
    requires OwedLoan(s, id) && s.loans[id].updatedAt <= now
    requires s.RepayLoan(signers, now, caller, id, 0).Ok?
    ensures var t := s.RepayLoan(signers, now, caller, id, 0).value.0;
            && OwedLoan(t, id) && t.config == s.config && t.loans[id].updatedAt == now
            && t.loans[id].balance
               == Grown(s.loans[id].balance, s.config.value.interestRateBps, now - s.loans[id].updatedAt)
  {
    var loan, rate := s.loans[id], s.config.value.interestRateBps;
    AccrueIsGrown(loan.balance, rate, now - loan.updatedAt);
    SettleUnpaid(s, id, now, Grown(loan.balance, rate, now - loan.updatedAt), 0);
  }

  lemma {:induction false} TouchesAreGaps(s: Kraal, signers: set<Address>, caller: Address, id: LoanId,
                                          ledgers: seq<U32>)
    requires OwedLoan(s, id) && NonDecreasing(s.loans[id].updatedAt, ledgers)
    requires Touch(s, signers, caller, id, ledgers).Ok?
    ensures var t := Touch(s, signers, caller, id, ledgers).value;
            && OwedLoan(t, id)
            && t.loans[id].balance
               == GrownBy(s.loans[id].balance, s.config.value.interestRateBps, Gaps(s.loans[id].updatedAt, ledgers))
    decreases |ledgers|
  {
    if ledgers != [] {
      TouchOnce(s, signers, ledgers[0], caller, id);
      TouchesAreGaps(s.RepayLoan(signers, ledgers[0], caller, id, 0).value.0, signers, caller, id, ledgers[1..]);
      assert Gaps(s.loans[id].updatedAt, ledgers)[1..] == Gaps(ledgers[0], ledgers[1..]);
    }
  }

  // k zero repayments end at least at the single repayment's balance less k - 1 stroops, and at most at exact compound
  // interest over the same gaps.
  lemma TouchingVersusWaiting(s: Kraal, signers: set<Address>, caller: Address, id: LoanId, ledgers: seq<U32>)
    requires OwedLoan(s, id) && ledgers != [] && NonDecreasing(s.loans[id].updatedAt, ledgers)
    requires Touch(s, signers, caller, id, ledgers).Ok?
    ensures var rate, loan := s.config.value.interestRateBps, s.loans[id];
            var t := Touch(s, signers, caller, id, ledgers).value;
            var waited := s.RepayLoan(signers, ledgers[|ledgers| - 1], caller, id, 0);
            && OwedLoan(t, id)
            && var final := t.loans[id].balance;
            && (waited.Ok? ==> waited.value.1 <= final + |ledgers| - 1)
            && Pow(RATE_UNIT, |ledgers|) * final <= loan.balance * Compound(rate, Gaps(loan.updatedAt, ledgers))
  {
    var rate, loan := s.config.value.interestRateBps, s.loans[id];
    var gaps := Gaps(loan.updatedAt, ledgers);
    TouchesAreGaps(s, signers, caller, id, ledgers);
    SplittingLosesLittle(loan.balance, rate, gaps);
    SplittingStaysUnderCompound(loan.balance, rate, gaps);
    var last := ledgers[|ledgers| - 1];
    var waited := s.RepayLoan(signers, last, caller, id, 0);
    if waited.Ok? {
      AccrueIsGrown(loan.balance, rate, last - loan.updatedAt);
    }
  }
}
