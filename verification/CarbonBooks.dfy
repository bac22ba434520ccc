/**
 * The books of one credit contract: every project's balances add up to its total supply.
 * Each operation keeps the books and moves supply and retired supply by an exact amount,
 * so the saturating and checked arithmetic of the contract never loses a unit.
 */
module CarbonBooks {
  import opened Base
  import opened MapSums
  import R = CarbonRegistry
  import opened C = CarbonCredit

  // ---------------------------------------------------------------- totals over sparse rows

  /** What a balance row adds to the total of project `id`. */
  ghost function Share(id: ProjectId): ((Address, ProjectId), int) -> int {
    (k: (Address, ProjectId), v: int) => if k.1 == id then v else 0
  }

  ghost function Total(m: Balances, id: ProjectId): int {
    SumOver(m, Share(id))
  }

  lemma TotalWrite(m: Balances, k: (Address, ProjectId), v: int, id: ProjectId)
    ensures Total(m[k := v], id) == Total(m, id) + (if k.1 == id then v - Row(m, k) else 0)
    ensures Total(Put(m, k, v), id) == Total(m, id) + (if k.1 == id then v - Row(m, k) else 0)
  {
    SumOverWrite(m, k, v, Share(id));
    if v == 0 && k in m {
      SumOverRemove(m, k, Share(id));
    } else if v == 0 {
      assert m - {k} == m;
    }
  }

  lemma TotalNonNegative(m: Balances, id: ProjectId)
    requires RowsPositive(m)
    ensures Total(m, id) >= 0
  {
    SumOverNonNegative(m, Share(id));
  }

  lemma RowWithinTotal(m: Balances, a: Address, id: ProjectId)
    requires RowsPositive(m)
    ensures 0 <= Row(m, (a, id)) <= Total(m, id)
  {
    TotalNonNegative(m, id);
    if (a, id) in m {
      SumOverRemove(m, (a, id), Share(id));
      TotalNonNegative(m - {(a, id)}, id);
    }
  }

  lemma TwoRowsWithinTotal(m: Balances, a: Address, b: Address, id: ProjectId)
    requires RowsPositive(m) && a != b
    ensures Row(m, (a, id)) + Row(m, (b, id)) <= Total(m, id)
  {
    RowWithinTotal(m, b, id);
    if (a, id) in m {
      SumOverRemove(m, (a, id), Share(id));
      RowWithinTotal(m - {(a, id)}, b, id);
    }
  }

  // ---------------------------------------------------------------- the invariant of the books

  ghost predicate Books(c: Credit) {
    && RowsPositive(c.balances)
    && RowsPositive(c.supply)
    && RowsPositive(c.retired)
    && forall id :: Total(c.balances, id) == Row(c.supply, id) <= I128_MAX
  }

  function Balance(c: Credit, a: Address, id: ProjectId): int {
    Row(c.balances, (a, id))
  }

  lemma BalanceWithinSupply(c: Credit, a: Address, id: ProjectId)
    requires Books(c)
    ensures 0 <= Balance(c, a, id) <= Row(c.supply, id) <= I128_MAX
  {
    RowWithinTotal(c.balances, a, id);
    assert Total(c.balances, id) == Row(c.supply, id);
  }

  // A burn or a retirement never saturates: the supply covers every balance.
  lemma SaturatingSubIsExact(c: Credit, a: Address, id: ProjectId, amount: int)
    requires Books(c) && 0 <= amount <= Balance(c, a, id)
    ensures SaturatingSub(Row(c.supply, id), amount) == Row(c.supply, id) - amount >= 0
  {
    BalanceWithinSupply(c, a, id);
  }

  lemma MintKeepsBooks(c: Credit, signers: set<Address>, project: Option<R.Project>, to: Address, id: ProjectId,
                       amount: int)
    requires Books(c) && c.Mint(signers, project, to, id, amount).Ok?
    ensures var d := c.Mint(signers, project, to, id, amount).value.0;
            && Books(d) && d.retired == c.retired && d.usedOps == c.usedOps && d.config == c.config
            && (forall p :: Row(d.supply, p) == Row(c.supply, p) + if p == id then amount else 0)
            && (forall a, p :: Balance(d, a, p) == Balance(c, a, p) + if (a, p) == (to, id) then amount else 0)
  {
    var d := c.Mint(signers, project, to, id, amount).value.0;
    BalanceWithinSupply(c, to, id);
    forall p ensures Total(d.balances, p) == Row(d.supply, p) <= I128_MAX {
      TotalWrite(c.balances, (to, id), Balance(c, to, id) + amount, p);
      assert Total(c.balances, p) == Row(c.supply, p);
    }
  }

  lemma BurnKeepsBooks(c: Credit, signers: set<Address>, from: Address, id: ProjectId, amount: int)
    requires Books(c) && c.Burn(signers, from, id, amount).Ok?
    ensures var d := c.Burn(signers, from, id, amount).value.0;
            && Books(d) && d.retired == c.retired && d.usedOps == c.usedOps && d.config == c.config
            && (forall p :: Row(d.supply, p) == Row(c.supply, p) - if p == id then amount else 0)
            && (forall a, p :: Balance(d, a, p) == Balance(c, a, p) - if (a, p) == (from, id) then amount else 0)
  {
    var d := c.Burn(signers, from, id, amount).value.0;
    SaturatingSubIsExact(c, from, id, amount);
    forall p ensures Total(d.balances, p) == Row(d.supply, p) <= I128_MAX {
      TotalWrite(c.balances, (from, id), Balance(c, from, id) - amount, p);
      assert Total(c.balances, p) == Row(c.supply, p);
    }
  }

  lemma RetireKeepsBooks(c: Credit, signers: set<Address>, from: Address, id: ProjectId, amount: int, op: OperationId)
    requires Books(c) && c.Retire(signers, from, id, amount, op).Ok?
    ensures var d := c.Retire(signers, from, id, amount, op).value.0;
            && Books(d) && d.config == c.config && op !in c.usedOps && d.usedOps == c.usedOps + {op}
            && (forall p :: Row(d.supply, p) == Row(c.supply, p) - if p == id then amount else 0)
            && (forall p :: Row(d.retired, p) == Row(c.retired, p) + if p == id then amount else 0)
            && (forall a, p :: Balance(d, a, p) == Balance(c, a, p) - if (a, p) == (from, id) then amount else 0)
  {
    var d := c.Retire(signers, from, id, amount, op).value.0;
    SaturatingSubIsExact(c, from, id, amount);
    forall p ensures Total(d.balances, p) == Row(d.supply, p) <= I128_MAX {
      TotalWrite(c.balances, (from, id), Balance(c, from, id) - amount, p);
      assert Total(c.balances, p) == Row(c.supply, p);
    }
  }

  // The receiving side's checked addition cannot fail: both balances lie under one supply.
  lemma TransferKeepsBooks(c: Credit, signers: set<Address>, from: Address, to: Address, id: ProjectId, amount: int)
    requires Books(c)
    ensures var r := c.Transfer(signers, from, to, id, amount);
            && (r.Ok? <==> from in signers && c.config.Some? && amount > 0
                           && (from == to || amount <= Balance(c, from, id)))
            && (r == Err(InvalidAmount) ==> amount <= 0)
            && (r.Ok? ==>
                  var d := r.value.0;
                  && Books(d) && d == c.(balances := d.balances)
                  && (forall a, p :: Balance(d, a, p) == Balance(c, a, p)
                                                          + (if from != to && (a, p) == (to, id) then amount else 0)
                                                          - (if from != to && (a, p) == (from, id) then amount else 0)))
  {
    if from != to && 0 < amount <= Balance(c, from, id) {
      TwoRowsWithinTotal(c.balances, from, to, id);
      BalanceWithinSupply(c, to, id);
      assert Total(c.balances, id) == Row(c.supply, id);
      var debited := Put(c.balances, (from, id), Balance(c, from, id) - amount);
      var d := c.(balances := debited[(to, id) := Balance(c, to, id) + amount]);
      forall p ensures Total(d.balances, p) == Row(d.supply, p) <= I128_MAX {
        TotalWrite(c.balances, (from, id), Balance(c, from, id) - amount, p);
        TotalWrite(debited, (to, id), Balance(c, to, id) + amount, p);
        assert Total(c.balances, p) == Row(c.supply, p);
      }
    }
  }
}
